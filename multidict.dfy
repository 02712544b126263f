/**
 * The request's form and query-string data: a multi-valued dictionary that keeps
 * every (key, value) pair in the order the client sent it.
 * `Get` is the dictionary's `get` (the first value under a key),
 * `GetList` its `getlist` (every value under a key, in arrival order).
 */
module MultiDict {
  import opened Wrappers

  type Pairs = seq<(string, string)>

  /** No pair of `d` has key `key`. */
  ghost predicate Absent(d: Pairs, key: string) {
    forall i :: 0 <= i < |d| ==> d[i].0 != key
  }

  /** `i` is the position of the first pair of `d` whose key is `key`. */
  ghost predicate FirstAt(d: Pairs, key: string, i: int) {
    0 <= i < |d| && d[i].0 == key && forall j :: 0 <= j < i ==> d[j].0 != key
  }

  /** The first value sent under `key`, or `None` when the key was not sent at all. */
  function Get(d: Pairs, key: string): (r: Option<string>)
    ensures r.None? <==> Absent(d, key)
    ensures r.Some? ==> exists i :: FirstAt(d, key, i) && d[i].1 == r.value
  {
    if d == [] then None
    else if d[0].0 == key then
      assert FirstAt(d, key, 0);
      Some(d[0].1)
    else
      var r := Get(d[1..], key);
      if r.Some? then
        assert exists i :: FirstAt(d, key, i) && d[i].1 == r.value by {
          var i :| FirstAt(d[1..], key, i) && d[1..][i].1 == r.value;
          assert FirstAt(d, key, i + 1);
        }
        r
      else r
  }

  /** Every value sent under `key`, in the order they arrived. */
  function GetList(d: Pairs, key: string): (r: seq<string>)
    ensures forall v :: v in r <==> (key, v) in d
    ensures |r| <= |d|
  {
    if d == [] then []
    else if d[0].0 == key then [d[0].1] + GetList(d[1..], key)
    else GetList(d[1..], key)
  }

  /** `get` of a key sent at least once is the value at the key's first position. */
  lemma GetAtFirst(d: Pairs, key: string, i: int)
    requires FirstAt(d, key, i)
    ensures Get(d, key) == Some(d[i].1)
  {
    var r := Get(d, key);
    assert !Absent(d, key);
    var j :| FirstAt(d, key, j) && d[j].1 == r.value;
    assert !(j < i) && !(i < j);
  }

  /** `getlist` keeps arrival order: the values of a concatenation are the concatenation of the values. */
  lemma {:induction false} GetListAppend(a: Pairs, b: Pairs, key: string)
    ensures GetList(a + b, key) == GetList(a, key) + GetList(b, key)
  {
    if a == [] {
      assert a + b == b;
    } else {
      assert (a + b)[1..] == a[1..] + b;
      GetListAppend(a[1..], b, key);
    }
  }

  /** `get` returns the first of the values `getlist` returns, and `None` exactly when there are none. */
  lemma {:induction false} GetIsHeadOfGetList(d: Pairs, key: string)
    ensures Get(d, key) == if GetList(d, key) == [] then None else Some(GetList(d, key)[0])
  {
    if d != [] && d[0].0 != key {
      GetIsHeadOfGetList(d[1..], key);
    }
  }
}
