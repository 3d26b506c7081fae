/** Duplicate-free sequences: removal, what comes after an element, and key listings. */
module Sequences {

  datatype Option<+T> = None | Some(value: T)

  ghost predicate NoDup<T>(s: seq<T>) {
    forall i, j :: 0 <= i < j < |s| ==> s[i] != s[j]
  }

  /** `s` is one of the orders in which a hash table with these keys may be iterated. */
  ghost predicate Lists<T(!new)>(s: seq<T>, keys: set<T>) {
    NoDup(s) && forall x :: x in s <==> x in keys
  }

  /** `s` with every occurrence of `x` taken out. */
  function Without<T(==)>(s: seq<T>, x: T): seq<T> {
    if s == [] then [] else (if s[0] == x then [] else [s[0]]) + Without(s[1..], x)
  }

  /** The part of `s` behind the first occurrence of `x`. */
  function After<T(==)>(s: seq<T>, x: T): seq<T> {
    if s == [] then [] else if s[0] == x then s[1..] else After(s[1..], x)
  }

  lemma NoDupTail<T>(s: seq<T>)
    requires s != [] && NoDup(s)
    ensures NoDup(s[1..]) && s[0] !in s[1..]
  {
    var t := s[1..];
    forall i | 0 <= i < |t| ensures t[i] != s[0] { assert s[i + 1] != s[0]; }
    forall i, j | 0 <= i < j < |t| ensures t[i] != t[j] { assert s[i + 1] != s[j + 1]; }
  }

  lemma {:induction false} WithoutElements<T>(s: seq<T>, x: T)
    ensures forall y :: y in Without(s, x) <==> y in s && y != x
    ensures NoDup(s) ==> NoDup(Without(s, x))
    ensures NoDup(s) ==> |Without(s, x)| == if x in s then |s| - 1 else |s|
    ensures x !in s ==> Without(s, x) == s
  {
    if s != [] {
      var t := s[1..];
      WithoutElements(t, x);
      assert s == [s[0]] + t;
      if NoDup(s) { NoDupTail(s); }
    }
  }

  lemma {:induction false} AfterElements<T>(s: seq<T>, x: T)
    ensures forall y :: y in After(s, x) ==> y in s
    ensures NoDup(s) ==> NoDup(After(s, x)) && x !in After(s, x)
  {
    if s != [] {
      var t := s[1..];
      AfterElements(t, x);
      assert s == [s[0]] + t;
      if NoDup(s) { NoDupTail(s); }
    }
  }

  /** Taking another element out commutes with looking behind `x`. */
  lemma {:induction false} AfterWithout<T>(s: seq<T>, x: T, y: T)
    requires x != y
    ensures After(Without(s, y), x) == Without(After(s, x), y)
  {
    if s != [] {
      var head := if s[0] == y then [] else [s[0]];
      var rest := Without(s[1..], y);
      AfterWithout(s[1..], x, y);
      if s[0] != y {
        assert (head + rest)[1..] == rest;
      } else {
        assert head + rest == rest;
      }
    }
  }

  lemma AfterCons<T>(y: T, s: seq<T>, x: T)
    ensures After([y] + s, x) == if x == y then s else After(s, x)
  {
    assert ([y] + s)[1..] == s;
  }

  lemma {:induction false} AfterSnoc<T>(s: seq<T>, x: T, w: T)
    ensures w in s ==> After(s + [x], w) == After(s, w) + [x]
    ensures w !in s ==> After(s + [x], w) == []
  {
    if s != [] {
      assert s == [s[0]] + s[1..] && (s + [x])[1..] == s[1..] + [x];
      AfterSnoc(s[1..], x, w);
    } else {
      assert [x][1..] == [] && s + [x] == [x];
    }
  }

  /** In a duplicate-free sequence, being behind `x` is having a larger index. */
  lemma {:induction false} AfterByIndex<T>(s: seq<T>, i: nat)
    requires i < |s| && NoDup(s)
    ensures After(s, s[i]) == s[i + 1..]
    decreases i
  {
    if i > 0 {
      var t := s[1..];
      NoDupTail(s);
      AfterByIndex(t, i - 1);
      assert t[i..] == s[i + 1..];
    }
  }

  lemma NoDupSnoc<T>(front: seq<T>, last: T)
    ensures NoDup(front + [last]) <==> NoDup(front) && last !in front
  {
    var s := front + [last];
    assert forall i :: 0 <= i < |front| ==> s[i] == front[i];
    assert s[|front|] == last;
    if NoDup(s) {
      forall i, j | 0 <= i < j < |front| ensures front[i] != front[j] { assert s[i] != s[j]; }
      forall i | 0 <= i < |front| ensures front[i] != last { assert s[i] != s[|front|]; }
    }
  }

  lemma Associate<T>(a: seq<T>, b: seq<T>, c: seq<T>)
    ensures a + b + c == a + (b + c)
  {
  }

  /** What a loop appends piece by piece it appends as a whole. */
  lemma Regroup<T>(before: seq<T>, a: seq<T>, b: seq<T>, c: seq<T>, d: seq<T>, e: seq<T>)
    ensures before + a + b + c + d + e == before + (a + b + c + d + e)
    ensures before + a + b + c + d == before + (a + b + c + d)
  {
  }
}
