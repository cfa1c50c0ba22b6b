/** Sequence vocabulary used across the project. */
module Sequences {
  import opened Wrappers

  function Min(a: nat, b: nat): nat {
    if a < b then a else b
  }

  lemma Regroup<T>(a: seq<T>, b: seq<T>, c: seq<T>)
    ensures (a + b) + c == a + (b + c)
  {
  }

  lemma ConcatSnoc<T>(a: seq<T>, s: seq<T>)
    requires s != []
    ensures a + s == (a + s[..|s| - 1]) + [s[|s| - 1]]
  {
  }

  lemma Snoc<T>(s: seq<T>)
    requires s != []
    ensures s == s[..|s| - 1] + [s[|s| - 1]]
  {
  }

  lemma CutConcat<T>(a: seq<T>, b: seq<T>, k: nat)
    requires k <= |a| + |b|
    ensures (a + b)[..k] == if k < |a| then a[..k] else a + b[..k - |a|]
  {
  }

  lemma DropTwice<T>(s: seq<T>, i: nat)
    requires 0 < i <= |s|
    ensures s[1..][i - 1..] == s[i..]
  {
  }

  lemma CutTwice<T>(s: seq<T>, i: nat, j: nat)
    requires i <= j <= |s|
    ensures s[..j][..i] == s[..i]
  {
  }

  /** Concatenation of a list of sequences. */
  function Join<T>(parts: seq<seq<T>>): seq<T> {
    if parts == [] then [] else Join(parts[..|parts| - 1]) + parts[|parts| - 1]
  }

  lemma JoinAppend<T>(parts: seq<seq<T>>, last: seq<T>)
    ensures Join(parts + [last]) == Join(parts) + last
  {
    assert (parts + [last])[..|parts|] == parts;
  }

  /** The values f yields along s, in order. */
  function FilterMap<A, B>(f: A -> Option<B>, s: seq<A>): seq<B> {
    if s == [] then [] else
    FilterMap(f, s[..|s| - 1]) + Yield(f(s[|s| - 1]))
  }

  function Yield<B>(o: Option<B>): seq<B> {
    if o.Some? then [o.value] else []
  }

  lemma FilterMapAppend<A, B>(f: A -> Option<B>, s: seq<A>, x: A)
    ensures FilterMap(f, s + [x]) == FilterMap(f, s) + Yield(f(x))
  {
    assert (s + [x])[..|s|] == s;
  }

  lemma {:induction false} FilterMapConcat<A, B>(f: A -> Option<B>, s: seq<A>, t: seq<A>)
    ensures FilterMap(f, s + t) == FilterMap(f, s) + FilterMap(f, t)
  {
    if t == [] {
      assert s + t == s;
    } else {
      var front, last := t[..|t| - 1], t[|t| - 1];
      FilterMapConcat(f, s, front);
      Regroup(s, front, [last]);
      assert t == front + [last];
      FilterMapAppend(f, s + front, last);
      Regroup(FilterMap(f, s), FilterMap(f, front), Yield(f(last)));
    }
  }

  lemma FilterMapAround<A, B>(f: A -> Option<B>, before: seq<A>, x: A, after: seq<A>)
    ensures FilterMap(f, (before + [x]) + after) ==
            FilterMap(f, before) + (Yield(f(x)) + FilterMap(f, after))
  {
    FilterMapConcat(f, before + [x], after);
    FilterMapAppend(f, before, x);
    Regroup(FilterMap(f, before), Yield(f(x)), FilterMap(f, after));
  }

  lemma Around<T>(s: seq<T>, i: nat)
    requires i < |s|
    ensures s == (s[..i] + [s[i]]) + s[i + 1..]
  {
  }

  /** An element that yielded nothing is replaced. */
  lemma FilterMapUpdate<A, B>(f: A -> Option<B>, s: seq<A>, i: nat, x: A)
    requires i < |s| && f(s[i]) == None
    ensures f(x) == None ==> FilterMap(f, s[i := x]) == FilterMap(f, s)
    ensures f(x).Some? ==> multiset(FilterMap(f, s[i := x])) == multiset(FilterMap(f, s)) + multiset{f(x).value}
  {
    var before, after := s[..i], s[i + 1..];
    Around(s, i);
    Around(s[i := x], i);
    assert s[i := x][..i] == before && s[i := x][i + 1..] == after;
    FilterMapAround(f, before, s[i], after);
    FilterMapAround(f, before, x, after);
    assert [] + FilterMap(f, after) == FilterMap(f, after);
    if f(x).Some? {
      TakeOut(FilterMap(f, before), f(x).value, FilterMap(f, after));
    }
  }

  lemma SnocCount<T>(s: seq<T>, x: T, a: T)
    ensures multiset(s + [x])[a] == multiset(s)[a] + (if x == a then 1 else 0)
  {
  }

  lemma YieldCount<A, B>(f: A -> Option<B>, s: seq<A>, x: A, b: B)
    ensures multiset(FilterMap(f, s + [x]))[b] == multiset(FilterMap(f, s))[b] + (if f(x) == Some(b) then 1 else 0)
  {
    FilterMapAppend(f, s, x);
    if f(x).Some? {
      SnocCount(FilterMap(f, s), f(x).value, b);
    } else {
      assert FilterMap(f, s) + [] == FilterMap(f, s);
    }
  }

  lemma {:induction false} FilterMapTotal<A, B>(f: A -> Option<B>, s: seq<A>, r: seq<B>)
    requires |r| == |s| && forall i :: 0 <= i < |s| ==> f(s[i]) == Some(r[i])
    ensures FilterMap(f, s) == r
  {
    if s != [] {
      FilterMapTotal(f, s[..|s| - 1], r[..|r| - 1]);
      assert r == r[..|r| - 1] + [r[|r| - 1]];
    }
  }

  lemma MultisetConcat<T>(a: seq<T>, b: seq<T>)
    ensures multiset(a + b) == multiset(a) + multiset(b)
  {
  }

  /** Fewer inputs that yield something give fewer outputs, each counted as often as it occurs. */
  lemma {:induction false} FilterMapSub<A, B>(f: A -> Option<B>, s: seq<A>, t: seq<A>)
    requires forall x: A :: f(x).Some? ==> multiset(s)[x] <= multiset(t)[x]
    ensures multiset(FilterMap(f, s)) <= multiset(FilterMap(f, t))
    decreases |s|
  {
    if s != [] {
      var front, x := s[..|s| - 1], s[|s| - 1];
      Snoc(s);
      MultisetConcat(front, [x]);
      FilterMapAppend(f, front, x);
      if f(x).None? {
        FilterMapSub(f, front, t);
      } else {
        assert multiset(t)[x] >= 1;
        var j :| 0 <= j < |t| && t[j] == x;
        var before, after := t[..j], t[j + 1..];
        Around(t, j);
        Regroup(before, [x], after);
        TakeOut(before, x, after);
        FilterMapSub(f, front, before + after);
        FilterMapAround(f, before, x, after);
        FilterMapConcat(f, before, after);
        TakeOut(FilterMap(f, before), f(x).value, FilterMap(f, after));
        MultisetConcat(FilterMap(f, front), [f(x).value]);
      }
    }
  }

  /** Rearranging the input rearranges the output. */
  lemma FilterMapPermutes<A, B>(f: A -> Option<B>, s: seq<A>, t: seq<A>)
    requires multiset(s) == multiset(t)
    ensures multiset(FilterMap(f, s)) == multiset(FilterMap(f, t))
  {
    FilterMapSub(f, s, t);
    FilterMapSub(f, t, s);
  }

  lemma {:induction false} FilterMapMember<A, B>(f: A -> Option<B>, s: seq<A>, v: B)
    ensures v in FilterMap(f, s) <==> exists i :: 0 <= i < |s| && f(s[i]) == Some(v)
  {
    if s != [] {
      FilterMapMember(f, s[..|s| - 1], v);
      if v in FilterMap(f, s[..|s| - 1]) {
        var i :| 0 <= i < |s| - 1 && f(s[..|s| - 1][i]) == Some(v);
        assert f(s[i]) == Some(v);
      } else if f(s[|s| - 1]) != Some(v) {
        forall i | 0 <= i < |s| ensures f(s[i]) != Some(v) {
          assert i < |s| - 1 ==> s[i] == s[..|s| - 1][i];
        }
      }
    }
  }

  lemma TakeOut<T>(before: seq<T>, x: T, after: seq<T>)
    ensures multiset(before + ([x] + after)) == multiset(before + after) + multiset{x}
  {
    MultisetConcat(before, [x] + after);
    MultisetConcat([x], after);
    MultisetConcat(before, after);
  }
}
