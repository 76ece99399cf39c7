/** Generic operations on a table held as a sequence of rows. The sequence keeps insertion
    order; the queries themselves carry no ORDER BY, so that order is the model's choice. */
module Tables {
  import opened Common

  /** `select(...).filter_by(...).first()`: the index of the first row satisfying `p`. */
  function FirstWhere<T>(s: seq<T>, p: T -> bool): (r: Option<nat>)
    ensures r.Some? ==> r.value < |s| && p(s[r.value])
    ensures r.Some? ==> forall j :: 0 <= j < r.value ==> !p(s[j])
    ensures r.None? ==> forall j :: 0 <= j < |s| ==> !p(s[j])
  {
    if s == [] then None
    else if p(s[0]) then Some(0)
    else match FirstWhere(s[1..], p)
      case None => None
      case Some(k) => Some(k + 1)
  }

  /** `select(...).filter_by(column=k).first()`, with `key` projecting the filtered column:
      a stored row whose column equals `k`, or None exactly when there is none. */
  function FindBy<T, K(==)>(s: seq<T>, key: T -> K, k: K): (r: Option<T>)
    ensures r.Some? ==> r.value in s && key(r.value) == k
    ensures r.None? <==> forall x :: x in s ==> key(x) != k
  {
    match FirstWhere(s, (x: T) => key(x) == k)
    case None => None
    case Some(i) => Some(s[i])
  }

  /** The table with row `k` deleted and the order of the others kept. */
  function RemoveAt<T>(s: seq<T>, k: nat): (r: seq<T>)
    requires k < |s|
    ensures |r| == |s| - 1
    ensures forall i :: 0 <= i < k ==> r[i] == s[i]
    ensures forall i :: k <= i < |r| ==> r[i] == s[i + 1]
  {
    s[..k] + s[k + 1..]
  }
}
