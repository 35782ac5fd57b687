/** Option and error-carrying results shared by every part of the model. */
module Common {

  /** `None` stands for a pandas missing value (NaN) wherever a column may hold one. */
  datatype Option<T> = None | Some(value: T)

  /** The exceptions the scripts can raise on their inputs. */
  datatype Error =
    | ZeroDivision   // Python float division by a zero area
    | IndexError     // `.iloc[0]` or `[0]` on an empty selection
    | ValueError     // `max`/`idxmax` of an empty collection
    | KeyError       // a dictionary lookup of an unknown key

  datatype Result<T> = Ok(value: T) | Err(error: Error)

  /** The per-target loop of every script: `for t in targets: rows.append(f(t))`, one row per
      target in input order; the first target whose row raises stops the loop with its error. */
  method MapRows<A, B>(targets: seq<A>, f: A -> Result<B>) returns (r: Result<seq<B>>)
    ensures r.Ok? <==> forall k :: 0 <= k < |targets| ==> f(targets[k]).Ok?
    ensures r.Ok? ==> |r.value| == |targets|
    ensures r.Ok? ==> forall k :: 0 <= k < |targets| ==> f(targets[k]) == Ok(r.value[k])
    ensures r.Err? ==> exists k :: 0 <= k < |targets| && f(targets[k]) == Err(r.error) &&
                                   forall j :: 0 <= j < k ==> f(targets[j]).Ok?
  {
    var rows: seq<B> := [];
    var k := 0;
    while k < |targets|
      invariant 0 <= k <= |targets| && |rows| == k
      invariant forall j :: 0 <= j < k ==> f(targets[j]) == Ok(rows[j])
    {
      var row := f(targets[k]);
      if row.Err? {
        return Err(row.error);
      }
      rows := rows + [row.value];
      k := k + 1;
    }
    return Ok(rows);
  }
}
