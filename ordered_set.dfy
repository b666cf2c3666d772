/** A JavaScript `Set` seen as the sequence of its members in insertion order
    (the order `Array.from` and iteration produce). `add` of a present member
    does not move it; `delete` removes it and keeps the others in order. */
module OrderedSet {

  ghost predicate NoDup<T>(s: seq<T>)
  {
    forall i, j :: 0 <= i < j < |s| ==> s[i] != s[j]
  }

  /** `set.add(x)`: the old members keep their positions and `x` is present;
      the sequence grows by one exactly when `x` was absent. */
  function Add<T(==)>(s: seq<T>, x: T): (r: seq<T>)
    ensures |r| == if x in s then |s| else |s| + 1
    ensures r[..|s|] == s
    ensures x in r
  {
    if x in s then s else s + [x]
  }

  /** After `add(x)` the members are the old ones and `x`. */
  lemma AddMembers<T>(s: seq<T>, x: T, y: T)
    ensures y in Add(s, x) <==> y in s || y == x
  {
  }

  /** `add` keeps the members distinct. */
  lemma AddNoDup<T>(s: seq<T>, x: T)
    requires NoDup(s)
    ensures NoDup(Add(s, x))
  {
  }

  /** `set.delete(x)`: `x` is gone and the sequence did not grow. */
  function Delete<T(==)>(s: seq<T>, x: T): (r: seq<T>)
    ensures |r| <= |s|
    ensures x !in r
  {
    if s == [] then []
    else if s[0] == x then Delete(s[1..], x)
    else [s[0]] + Delete(s[1..], x)
  }

  /** After `delete(x)` the members are the old ones other than `x`. */
  lemma {:induction false} DeleteMembers<T>(s: seq<T>, x: T, y: T)
    ensures y in Delete(s, x) <==> y in s && y != x
  {
    if s != [] {
      DeleteMembers(s[1..], x, y);
      assert s == [s[0]] + s[1..];
    }
  }

  /** `delete` keeps the members distinct. */
  lemma {:induction false} DeleteNoDup<T>(s: seq<T>, x: T)
    requires NoDup(s)
    ensures NoDup(Delete(s, x))
  {
    if s != [] {
      assert NoDup(s[1..]);
      DeleteNoDup(s[1..], x);
      if s[0] != x {
        DeleteMembers(s[1..], x, s[0]);
        assert s[0] !in s[1..];
      }
    }
  }

  /** Deleting an absent member changes nothing. */
  lemma {:induction false} DeleteAbsent<T>(s: seq<T>, x: T)
    requires x !in s
    ensures Delete(s, x) == s
  {
    if s != [] {
      assert s[1..] + [] == s[1..];
      DeleteAbsent(s[1..], x);
      assert [s[0]] + s[1..] == s;
    }
  }

  /** On a duplicate-free sequence, deleting the member at index `i` splices it
      out and leaves the members before and after it in their order. */
  lemma {:induction false} DeleteSplice<T>(s: seq<T>, i: int)
    requires NoDup(s) && 0 <= i < |s|
    ensures Delete(s, s[i]) == s[..i] + s[i + 1..]
  {
    if i == 0 {
      assert s[0] !in s[1..];
      DeleteAbsent(s[1..], s[0]);
    } else {
      assert s[1..][i - 1] == s[i];
      assert NoDup(s[1..]);
      DeleteSplice(s[1..], i - 1);
      assert s[1..][..i - 1] == s[1..i];
      assert s[1..][i..] == s[i + 1..];
      assert [s[0]] + s[1..i] == s[..i];
    }
  }

  /** Ticking a box that was unticked and then unticking it restores the selection. */
  lemma {:induction false} DeleteAfterAdd<T>(s: seq<T>, x: T)
    requires x !in s
    ensures Delete(Add(s, x), x) == s
  {
    assert Add(s, x) == s + [x];
    if s == [] {
      assert Delete([x][1..], x) == [];
    } else {
      assert (s + [x])[0] == s[0] && (s + [x])[1..] == s[1..] + [x];
      DeleteAfterAdd(s[1..], x);
      assert [s[0]] + s[1..] == s;
    }
  }

  /** Unticking and ticking a member again moves it to the end of insertion order. */
  lemma AddAfterDelete<T>(s: seq<T>, x: T)
    ensures Add(Delete(s, x), x) == Delete(s, x) + [x]
  {
  }
}
