/**
  The `ORDER BY <column> DESC` the listing queries end with. A listing is
  first collected as row ids paired with the value of the ordering column,
  then sorted on that value, largest first. SQL leaves the order of equal
  values open; this insertion sort keeps them in id order.
*/
module Sorting {
  /** A row id and the value of the column the query orders by. */
  datatype Keyed = Keyed(id: nat, key: int)

  /** Largest key first. */
  predicate SortedDesc(s: seq<Keyed>) {
    forall i, j :: 0 <= i < j < |s| ==> s[i].key >= s[j].key
  }

  /** No row id occurs twice. */
  predicate DistinctIds(s: seq<Keyed>) {
    forall i, j :: 0 <= i < j < |s| ==> s[i].id != s[j].id
  }

  /** The ids of a listing, in its order. */
  function Ids(s: seq<Keyed>): (r: seq<nat>)
    ensures |r| == |s|
    ensures forall k :: 0 <= k < |s| ==> r[k] == s[k].id
  {
    seq(|s|, k requires 0 <= k < |s| => s[k].id)
  }

  /** Insert `x` before the first entry whose key is not above it. */
  function Insert(x: Keyed, s: seq<Keyed>): (r: seq<Keyed>)
    requires SortedDesc(s)
    ensures SortedDesc(r)
    ensures |r| == |s| + 1
    ensures forall e :: e in r <==> e == x || e in s
    ensures multiset(r) == multiset(s) + multiset{x}
  {
    if |s| == 0 then [x]
    else if x.key >= s[0].key then [x] + s
    else
      var t := Insert(x, s[1..]);
      assert s == [s[0]] + s[1..];
      ConsAfterInsert(s[0], x, s[1..], t);
      [s[0]] + t
  }

  /** Putting back the head that stayed above `x` keeps what `Insert` promises. */
  lemma {:induction false} ConsAfterInsert(h: Keyed, x: Keyed, rest: seq<Keyed>, t: seq<Keyed>)
    requires SortedDesc([h] + rest) && h.key > x.key
    requires SortedDesc(t) && |t| == |rest| + 1
    requires forall e :: e in t <==> e == x || e in rest
    requires multiset(t) == multiset(rest) + multiset{x}
    ensures SortedDesc([h] + t)
    ensures forall e :: e in [h] + t <==> e == x || e in [h] + rest
    ensures multiset([h] + t) == multiset([h] + rest) + multiset{x}
  {
    var r := [h] + t;
    forall i, j | 0 <= i < j < |r|
      ensures r[i].key >= r[j].key
    {
      if i == 0 {
        assert r[j] == t[j - 1] && t[j - 1] in t;
        if r[j] != x {
          var k :| 0 <= k < |rest| && rest[k] == r[j];
          assert ([h] + rest)[0] == h && ([h] + rest)[k + 1] == rest[k];
        }
      } else {
        assert r[i] == t[i - 1] && r[j] == t[j - 1];
      }
    }
  }

  /** Insertion sort, largest key first: a permutation of the entries. */
  function SortDesc(s: seq<Keyed>): (r: seq<Keyed>)
    ensures SortedDesc(r)
    ensures |r| == |s|
    ensures forall e :: e in r <==> e in s
    ensures multiset(r) == multiset(s)
  {
    if |s| == 0 then []
    else
      assert forall e :: e in s <==> e == s[0] || e in s[1..];
      assert s == [s[0]] + s[1..];
      Insert(s[0], SortDesc(s[1..]))
  }

  /** Sorting never duplicates a row: distinct ids stay distinct. */
  lemma {:induction false} SortDescDistinct(s: seq<Keyed>)
    requires DistinctIds(s)
    ensures DistinctIds(SortDesc(s))
    decreases |s|
  {
    if |s| > 0 {
      var t := s[1..];
      assert DistinctIds(t);
      SortDescDistinct(t);
      forall e | e in SortDesc(t)
        ensures e.id != s[0].id
      {
        var k :| 0 <= k < |t| && t[k] == e;
        assert s[k + 1] == e;
      }
      InsertDistinct(s[0], SortDesc(t));
    }
  }

  lemma {:induction false} InsertDistinct(x: Keyed, s: seq<Keyed>)
    requires SortedDesc(s) && DistinctIds(s)
    requires forall e :: e in s ==> e.id != x.id
    ensures DistinctIds(Insert(x, s))
    decreases |s|
  {
    if |s| == 0 {
    } else if x.key >= s[0].key {
      ConsDistinct(x, s);
    } else {
      var t := s[1..];
      assert forall e :: e in t ==> e in s;
      InsertDistinct(x, t);
      var r := Insert(x, t);
      forall e | e in r
        ensures e.id != s[0].id
      {
        if e != x {
          var k :| 0 <= k < |t| && t[k] == e;
          assert s[k + 1] == e;
        }
      }
      ConsDistinct(s[0], r);
    }
  }

  /** Putting a row whose id is new in front keeps ids distinct. */
  lemma {:induction false} ConsDistinct(a: Keyed, r: seq<Keyed>)
    requires DistinctIds(r)
    requires forall e :: e in r ==> e.id != a.id
    ensures DistinctIds([a] + r)
  {
    var t := [a] + r;
    forall i, j | 0 <= i < j < |t|
      ensures t[i].id != t[j].id
    {
      if i > 0 {
        assert t[i] == r[i - 1] && t[j] == r[j - 1];
      } else {
        assert t[j] == r[j - 1] && r[j - 1] in r;
      }
    }
  }

  /** The rows `ok` selects from position `k` on, as ids paired with their `keys` entry, in id order. */
  function Select(ok: seq<bool>, keys: seq<int>, k: nat): (c: seq<Keyed>)
    requires |ok| == |keys| && k <= |ok|
    ensures forall e :: e in c <==> k < e.id <= |ok| && ok[e.id - 1] && e.key == keys[e.id - 1]
    ensures forall i, j :: 0 <= i < j < |c| ==> c[i].id < c[j].id
    ensures forall i :: 0 <= i < |c| ==> c[i].id > k
    decreases |ok| - k
  {
    if k == |ok| then []
    else
      var rest := Select(ok, keys, k + 1);
      if ok[k] then [Keyed(k + 1, keys[k])] + rest else rest
  }

  /** `r` lists exactly the row ids `ok` selects. */
  ghost predicate Selects(r: seq<nat>, ok: seq<bool>) {
    forall id :: id in r <==> 1 <= id <= |ok| && ok[id - 1]
  }

  /** No id occurs twice in `r`. */
  ghost predicate NoRepeats(r: seq<nat>) {
    forall i, j :: 0 <= i < j < |r| ==> r[i] != r[j]
  }

  /** Every id of `r` names a row, and the rows' `keys` never increase along `r`. */
  ghost predicate OrderedBy(r: seq<nat>, keys: seq<int>) {
    && (forall i :: 0 <= i < |r| ==> 1 <= r[i] <= |keys|)
    && (forall i, j :: 0 <= i < j < |r| ==> keys[r[i] - 1] >= keys[r[j] - 1])
  }

  /**
    `SELECT id WHERE ok ORDER BY key DESC` over a table whose row `id` has
    the filter outcome `ok[id - 1]` and the ordering value `keys[id - 1]`:
    every selected id exactly once, largest key first.
  */
  method OrderByDesc(ok: seq<bool>, keys: seq<int>) returns (r: seq<nat>)
    requires |ok| == |keys|
    ensures Selects(r, ok) && NoRepeats(r) && OrderedBy(r, keys)
  {
    var c := Select(ok, keys, 0);
    var s := SortDesc(c);
    SortDescDistinct(c);
    r := Ids(s);
    Listing(ok, keys, c, s, r);
  }

  /** What a sorted selection lists, stated on its ids. */
  lemma {:induction false} Listing(ok: seq<bool>, keys: seq<int>, c: seq<Keyed>, s: seq<Keyed>, r: seq<nat>)
    requires |ok| == |keys|
    requires forall e :: e in c <==> 0 < e.id <= |ok| && ok[e.id - 1] && e.key == keys[e.id - 1]
    requires forall e :: e in s <==> e in c
    requires SortedDesc(s) && DistinctIds(s)
    requires |r| == |s| && forall k :: 0 <= k < |s| ==> r[k] == s[k].id
    ensures Selects(r, ok) && NoRepeats(r) && OrderedBy(r, keys)
  {
    forall id | id in r
      ensures 1 <= id <= |ok| && ok[id - 1]
    {
      var k :| 0 <= k < |r| && r[k] == id;
      assert s[k] in s;
    }
    forall id | 1 <= id <= |ok| && ok[id - 1]
      ensures id in r
    {
      var e := Keyed(id, keys[id - 1]);
      assert e in s;
      var k :| 0 <= k < |s| && s[k] == e;
      assert r[k] == id;
    }
    forall i, j | 0 <= i < j < |s|
      ensures 1 <= r[i] <= |keys| && 1 <= r[j] <= |keys| && keys[r[i] - 1] >= keys[r[j] - 1]
    {
      assert s[i] in s && s[j] in s;
    }
  }
}
