/**
 * Row selections shared by the controllers and by the table store: the
 * first row a lookup finds, the row with the greatest id (what
 * `ORDER BY id DESC LIMIT 1`, or a stable descending sort on id followed
 * by `[0]`, yields), and the id a new row receives (`max(ids) + 1`, or 1 on
 * an empty table).
 */
module Tables {
  import opened Common

  /** The first row satisfying `p`, as `Array.prototype.find` or a `get` with a WHERE clause returns it. */
  function First<T>(rows: seq<T>, p: T -> bool): (r: Option<T>)
    ensures r.None? <==> forall i :: 0 <= i < |rows| ==> !p(rows[i])
    ensures r.Some? ==> r.value in rows && p(r.value)
    ensures r.Some? ==> exists k :: 0 <= k < |rows| && rows[k] == r.value && forall i :: 0 <= i < k ==> !p(rows[i])
  {
    if rows == [] then None
    else if p(rows[0]) then Some(rows[0])
    else
      var r := First(rows[1..], p);
      assert r.Some? ==> exists k :: 1 <= k < |rows| && rows[k] == r.value && forall i :: 0 <= i < k ==> !p(rows[i]) by {
        if r.Some? {
          var k :| 0 <= k < |rows[1..]| && rows[1..][k] == r.value && forall i :: 0 <= i < k ==> !p(rows[1..][i]);
          assert rows[k + 1] == r.value;
          assert forall i :: 0 <= i < k + 1 ==> !p(rows[i]) by {
            forall i | 0 <= i < k + 1 ensures !p(rows[i]) {
              if i > 0 { assert rows[i] == rows[1..][i - 1]; }
            }
          }
        }
      }
      r
  }

  /**
   * Among the rows satisfying `keep`, one with the greatest id; among several
   * with that id, the earliest (a stable sort in descending id order keeps
   * them in table order, and the first element is taken).
   */
  function LatestWhere<T>(rows: seq<T>, keep: T -> bool, id: T -> int): (r: Option<T>)
    ensures r.None? <==> forall i :: 0 <= i < |rows| ==> !keep(rows[i])
    ensures r.Some? ==> r.value in rows && keep(r.value)
    ensures r.Some? ==> forall i :: 0 <= i < |rows| && keep(rows[i]) ==> id(rows[i]) <= id(r.value)
  {
    match LatestIndex(rows, keep, id, |rows|)
    case None => None
    case Some(k) => Some(rows[k])
  }

  /** The position LatestWhere picks among the first n rows. */
  function LatestIndex<T>(rows: seq<T>, keep: T -> bool, id: T -> int, n: nat): (r: Option<nat>)
    requires n <= |rows|
    ensures r.None? <==> forall i :: 0 <= i < n ==> !keep(rows[i])
    ensures r.Some? ==> r.value < n && keep(rows[r.value])
    ensures r.Some? ==> forall i :: 0 <= i < n && keep(rows[i]) ==> id(rows[i]) <= id(rows[r.value])
    ensures r.Some? ==> forall i :: 0 <= i < r.value && keep(rows[i]) ==> id(rows[i]) < id(rows[r.value])
  {
    if n == 0 then None
    else
      var rest := LatestIndex(rows, keep, id, n - 1);
      if !keep(rows[n - 1]) then rest
      else if rest.None? || id(rows[rest.value]) < id(rows[n - 1]) then Some(n - 1)
      else rest
  }

  /** The id column of a table. */
  function Ids<T>(rows: seq<T>, id: T -> int): (r: seq<int>)
    ensures |r| == |rows|
    ensures forall i :: 0 <= i < |rows| ==> r[i] == id(rows[i])
  {
    seq(|rows|, i requires 0 <= i < |rows| => id(rows[i]))
  }

  /** The greatest of a non-empty list of ids (`Math.max(...ids)`). */
  function MaxId(ids: seq<int>): (r: int)
    requires ids != []
    ensures r in ids
    ensures forall i :: 0 <= i < |ids| ==> ids[i] <= r
  {
    if |ids| == 1 then ids[0]
    else
      var m := MaxId(ids[1..]);
      assert forall i :: 1 <= i < |ids| ==> ids[i] == ids[1..][i - 1];
      if ids[0] <= m then m else ids[0]
  }

  /** The id an insert assigns: one more than the greatest id, or 1 on an empty table. */
  function NextId(ids: seq<int>): (r: int)
    ensures forall i :: 0 <= i < |ids| ==> ids[i] < r
    ensures ids == [] ==> r == 1
    ensures ids != [] ==> r - 1 in ids
  {
    if ids == [] then 1 else MaxId(ids) + 1
  }

  /** Ids strictly increasing in table order; in particular, pairwise distinct. */
  ghost predicate Increasing(ids: seq<int>)
  {
    forall i, j :: 0 <= i < j < |ids| ==> ids[i] < ids[j]
  }

  /** Appending a row with the next id keeps the ids increasing. */
  lemma IncreasingAppendNext(ids: seq<int>)
    requires Increasing(ids)
    ensures Increasing(ids + [NextId(ids)])
  {
  }

  /** Appending rows one batch after another is appending them all at once. */
  lemma AppendAssociates<T>(a: seq<T>, b: seq<T>, c: seq<T>)
    ensures a + b + c == a + (b + c)
  {
  }
}
