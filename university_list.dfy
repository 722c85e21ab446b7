/** The two list operations both stores perform on universities, keyed by id:
    `list.some(u => u.id === id)` and `list.filter(u => u.id !== id)`. */
module UniversityList {

  import opened Types

  /** `list.some(u => u.id === id)`. */
  function HasId(list: seq<University>, id: string): (r: bool)
    ensures r <==> exists i :: 0 <= i < |list| && list[i].id == id
  {
    if list == [] then false
    else if list[0].id == id then true
    else
      assert forall i :: 1 <= i < |list| ==> list[i] == list[1..][i - 1];
      HasId(list[1..], id)
  }

  /** `list.filter(u => u.id !== id)`. */
  function WithoutId(list: seq<University>, id: string): (r: seq<University>)
    ensures |r| <= |list|
    ensures forall u :: u in r <==> u in list && u.id != id
    ensures !HasId(r, id)
  {
    if list == [] then []
    else if list[0].id == id then WithoutId(list[1..], id)
    else [list[0]] + WithoutId(list[1..], id)
  }

  /** No two entries share an id. */
  ghost predicate DistinctIds(list: seq<University>) {
    forall i, j :: 0 <= i < j < |list| ==> list[i].id != list[j].id
  }

  /** Filtering works piecewise, so it keeps the relative order of what it
      keeps. */
  lemma {:induction false} WithoutIdAppend(a: seq<University>, b: seq<University>, id: string)
    ensures WithoutId(a + b, id) == WithoutId(a, id) + WithoutId(b, id)
  {
    if a != [] {
      var head := if a[0].id == id then [] else [a[0]];
      assert (a + b)[0] == a[0];
      assert (a + b)[1..] == a[1..] + b;
      assert WithoutId(a + b, id) == head + WithoutId(a[1..] + b, id);
      assert WithoutId(a, id) == head + WithoutId(a[1..], id);
      WithoutIdAppend(a[1..], b, id);
    } else {
      assert a + b == b;
    }
  }

  /** Filtering out an id that does not occur changes nothing. */
  lemma {:induction false} WithoutAbsentId(list: seq<University>, id: string)
    requires !HasId(list, id)
    ensures WithoutId(list, id) == list
  {
    if list != [] {
      WithoutAbsentId(list[1..], id);
      assert list == [list[0]] + list[1..];
    }
  }

  /** Removing the entry at `i` whose id is unique leaves the entries before
      and after it, in order. */
  lemma {:induction false} WithoutIdAt(list: seq<University>, i: nat)
    requires DistinctIds(list)
    requires i < |list|
    ensures WithoutId(list, list[i].id) == list[..i] + list[i + 1..]
  {
    var id := list[i].id;
    var a, b := list[..i], list[i + 1..];
    assert list == a + [list[i]] + b;
    assert !HasId(a, id);
    assert !HasId(b, id) by {
      forall k | 0 <= k < |b| ensures b[k].id != id {
        assert b[k] == list[i + 1 + k];
      }
    }
    WithoutIdAppend(a + [list[i]], b, id);
    WithoutIdAppend(a, [list[i]], id);
    WithoutAbsentId(a, id);
    WithoutAbsentId(b, id);
  }

  /** Filtering keeps distinct ids distinct. */
  lemma {:induction false} WithoutIdKeepsDistinct(list: seq<University>, id: string)
    requires DistinctIds(list)
    ensures DistinctIds(WithoutId(list, id))
  {
    if list != [] {
      var rest := list[1..];
      assert DistinctIds(rest) by {
        forall i, j | 0 <= i < j < |rest| ensures rest[i].id != rest[j].id {
          assert rest[i] == list[i + 1] && rest[j] == list[j + 1];
        }
      }
      WithoutIdKeepsDistinct(rest, id);
      if list[0].id != id {
        var w := WithoutId(rest, id);
        assert !HasId(rest, list[0].id) by {
          forall k | 0 <= k < |rest| ensures rest[k].id != list[0].id {
            assert rest[k] == list[k + 1];
          }
        }
        forall k | 0 <= k < |w| ensures w[k].id != list[0].id {
          assert w[k] in w;
        }
      }
    }
  }

  /** With distinct ids, removing a present id shortens the list by one. */
  lemma {:induction false} WithoutPresentIdLength(list: seq<University>, id: string)
    requires DistinctIds(list)
    requires HasId(list, id)
    ensures |WithoutId(list, id)| == |list| - 1
  {
    var i :| 0 <= i < |list| && list[i].id == id;
    WithoutIdAt(list, i);
  }

  /** Appending an entry whose id is new keeps the ids distinct. */
  lemma {:induction false} AppendNewKeepsDistinct(list: seq<University>, u: University)
    requires DistinctIds(list)
    requires !HasId(list, u.id)
    ensures DistinctIds(list + [u])
  {
    var l := list + [u];
    forall i, j | 0 <= i < j < |l| ensures l[i].id != l[j].id {
      if j == |list| {
        assert l[i] == list[i];
      } else {
        assert l[i] == list[i] && l[j] == list[j];
      }
    }
  }
}
