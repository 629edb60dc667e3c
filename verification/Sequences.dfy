/** Order-preserving selection from a sequence: what a query with a WHERE clause returns. */
module Sequences {

  function Filter<T>(p: T -> bool, s: seq<T>): (r: seq<T>)
    ensures |r| <= |s|
  {
    if s == [] then [] else
      (if p(s[0]) then [s[0]] else []) + Filter(p, s[1..])
  }

  lemma {:induction false} FilterMember<T>(p: T -> bool, s: seq<T>, x: T)
    ensures x in Filter(p, s) <==> x in s && p(x)
  {
    if s != [] {
      FilterMember(p, s[1..], x);
    }
  }

  lemma {:induction false} FilterMembers<T>(p: T -> bool, s: seq<T>)
    ensures forall x :: x in Filter(p, s) ==> x in s && p(x)
    ensures forall x :: x in s && p(x) ==> x in Filter(p, s)
  {
    forall x | x in Filter(p, s) ensures x in s && p(x) { FilterMember(p, s, x); }
    forall x | x in s && p(x) ensures x in Filter(p, s) { FilterMember(p, s, x); }
  }

  lemma {:induction false} FilterConcat<T>(p: T -> bool, a: seq<T>, b: seq<T>)
    ensures Filter(p, a + b) == Filter(p, a) + Filter(p, b)
  {
    if a == [] {
      assert a + b == b;
    } else {
      var head := if p(a[0]) then [a[0]] else [];
      calc {
        Filter(p, a + b);
        { assert (a + b)[1..] == a[1..] + b && (a + b)[0] == a[0]; }
        head + Filter(p, a[1..] + b);
        { FilterConcat(p, a[1..], b); }
        head + (Filter(p, a[1..]) + Filter(p, b));
        (head + Filter(p, a[1..])) + Filter(p, b);
        Filter(p, a) + Filter(p, b);
      }
    }
  }

  lemma {:induction false} FilterAgree<T>(p: T -> bool, q: T -> bool, s: seq<T>)
    requires forall x :: x in s ==> p(x) == q(x)
    ensures Filter(p, s) == Filter(q, s)
  {
    if s != [] {
      FilterAgree(p, q, s[1..]);
    }
  }

  /** Selecting by `p` from what `q` already let through, when `q` lets every `p` through. */
  lemma {:induction false} FilterWithin<T>(p: T -> bool, q: T -> bool, s: seq<T>)
    requires forall x :: x in s && p(x) ==> q(x)
    ensures Filter(p, Filter(q, s)) == Filter(p, s)
  {
    if s != [] {
      FilterConcat(p, if q(s[0]) then [s[0]] else [], Filter(q, s[1..]));
      FilterWithin(p, q, s[1..]);
    }
  }

  lemma FilterFirst<T>(p: T -> bool, s: seq<T>)
    requires s != []
    ensures Filter(p, s) == if p(s[0]) then [s[0]] + Filter(p, s[1..]) else Filter(p, s[1..])
  {
    assert [] + Filter(p, s[1..]) == Filter(p, s[1..]);
  }

  lemma FilterOnto<T>(p: T -> bool, x: T, s: seq<T>)
    ensures Filter(p, [x] + s) == if p(x) then [x] + Filter(p, s) else Filter(p, s)
  {
    assert ([x] + s)[1..] == s;
    FilterFirst(p, [x] + s);
  }

  /** Selecting by `p` does not see changes among rows that `p` does not select. */
  lemma {:induction false} FilterUnseen<T>(p: T -> bool, a: seq<T>, b: seq<T>)
    requires |a| == |b| && forall i :: 0 <= i < |a| ==> a[i] == b[i] || (!p(a[i]) && !p(b[i]))
    ensures Filter(p, a) == Filter(p, b)
  {
    if a != [] {
      FilterUnseen(p, a[1..], b[1..]);
    }
  }

  lemma {:induction false} FilterNone<T>(p: T -> bool, s: seq<T>)
    requires forall x :: x in s ==> !p(x)
    ensures Filter(p, s) == []
  {
    if s != [] {
      FilterNone(p, s[1..]);
    }
  }

  lemma {:induction false} FilterAll<T>(p: T -> bool, s: seq<T>)
    requires forall x :: x in s ==> p(x)
    ensures Filter(p, s) == s
  {
    if s != [] {
      FilterAll(p, s[1..]);
    }
  }

  lemma {:induction false} FilterCommutes<T>(p: T -> bool, q: T -> bool, s: seq<T>)
    ensures Filter(p, Filter(q, s)) == Filter(q, Filter(p, s))
  {
    if s != [] {
      FilterCommutes(p, q, s[1..]);
      FilterFirst(q, s);
      FilterFirst(p, s);
      FilterOnto(p, s[0], Filter(q, s[1..]));
      FilterOnto(q, s[0], Filter(p, s[1..]));
    }
  }

  /** A selection is the whole exactly when it is as long, that is when nothing fails `p`. */
  lemma {:induction false} KeptExactly<T>(p: T -> bool, s: seq<T>)
    ensures |Filter(p, s)| == |s| <==> forall x :: x in s ==> p(x)
    ensures Filter(p, s) == s <==> forall x :: x in s ==> p(x)
  {
    if forall x :: x in s ==> p(x) {
      FilterAll(p, s);
    } else {
      var x :| x in s && !p(x);
      var i :| 0 <= i < |s| && s[i] == x;
      assert s == s[..i] + [x] + s[i + 1..];
      FilterConcat(p, s[..i] + [x], s[i + 1..]);
      FilterConcat(p, s[..i], [x]);
      FilterNone(p, [x]);
    }
  }

  /** Where the same row cannot be selected twice from `s`, it cannot be from a selection. */
  ghost predicate Distinct<T>(s: seq<T>) {
    forall i, j :: 0 <= i < j < |s| ==> s[i] != s[j]
  }

  lemma DistinctConcat<T>(a: seq<T>, b: seq<T>)
    requires Distinct(a) && Distinct(b) && forall x :: x in a ==> x !in b
    ensures Distinct(a + b)
  {
    forall i, j | 0 <= i < j < |a + b| ensures (a + b)[i] != (a + b)[j] {
      if i < |a| <= j {
        assert a[i] in a && b[j - |a|] in b;
      }
    }
  }

  lemma {:induction false} FilterDistinct<T>(p: T -> bool, s: seq<T>)
    requires Distinct(s)
    ensures Distinct(Filter(p, s))
  {
    if s != [] {
      FilterDistinct(p, s[1..]);
      FilterMember(p, s[1..], s[0]);
    }
  }


  /** A selection free of repeats comes from a sequence that does not repeat what is selected. */
  lemma RepeatSurvives<T>(p: T -> bool, s: seq<T>, i: nat, j: nat)
    requires i < j < |s| && s[i] == s[j] && p(s[i])
    ensures !Distinct(Filter(p, s))
  {
    hide Filter;
    var a, b := Filter(p, s[..j]), Filter(p, s[j..]);
    assert s == s[..j] + s[j..];
    FilterConcat(p, s[..j], s[j..]);
    FilterMember(p, s[..j], s[i]);
    FilterMember(p, s[j..], s[j]);
    assert s[..j][i] == s[i] && s[j..][0] == s[j];
    var k :| 0 <= k < |a| && a[k] == s[i];
    var m :| 0 <= m < |b| && b[m] == s[i];
    assert (a + b)[k] == (a + b)[|a| + m];
  }
}
