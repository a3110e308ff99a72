/** Generic sequence helpers shared by the text, throttle and file-selection models. */
module Seqs {

  /** The elements of `s` that satisfy `p`, in their original order. */
  function Filter<T>(p: T -> bool, s: seq<T>): (r: seq<T>)
    ensures |r| <= |s|
    ensures forall x :: x in r ==> x in s && p(x)
  {
    if s == [] then [] else (if p(s[0]) then [s[0]] else []) + Filter(p, s[1..])
  }

  lemma {:induction false} FilterConcat<T>(p: T -> bool, a: seq<T>, b: seq<T>)
    ensures Filter(p, a + b) == Filter(p, a) + Filter(p, b)
  {
    if a == [] {
      assert a + b == b;
    } else {
      assert (a + b)[1..] == a[1..] + b;
      FilterConcat(p, a[1..], b);
    }
  }

  /** Filtering keeps an element that satisfies `p` and drops every one that does not. */
  lemma {:induction false} FilterMembership<T>(p: T -> bool, s: seq<T>, x: T)
    ensures x in Filter(p, s) <==> x in s && p(x)
  {
    if s != [] {
      FilterMembership(p, s[1..], x);
      assert s == [s[0]] + s[1..];
    }
  }

  /** A non-empty sequence is its head followed by its tail, also as a multiset. */
  lemma MultisetCons<T>(s: seq<T>)
    requires s != []
    ensures multiset(s) == multiset{s[0]} + multiset(s[1..])
  {
    assert s == [s[0]] + s[1..];
  }

  /**
   * Splits `s` into the runs between separator elements, like JavaScript's
   * `split`: `n` separators give `n + 1` (possibly empty) fields.
   */
  function Split<T>(s: seq<T>, isSep: T -> bool): (r: seq<seq<T>>)
    ensures |r| == |Filter(isSep, s)| + 1
  {
    if s == [] then [[]]
    else
      var rest := Split(s[1..], isSep);
      if isSep(s[0]) then [[]] + rest
      else [[s[0]] + rest[0]] + rest[1..]
  }

  /** No field of a split holds a separator. */
  lemma {:induction false} SplitFieldsClean<T>(s: seq<T>, isSep: T -> bool)
    ensures forall i, j :: 0 <= i < |Split(s, isSep)| && 0 <= j < |Split(s, isSep)[i]| ==> !isSep(Split(s, isSep)[i][j])
  {
    if s != [] {
      SplitFieldsClean(s[1..], isSep);
    }
  }

  /** A run with no separator in it is a single field. */
  lemma {:induction false} SplitNoSeparator<T>(s: seq<T>, isSep: T -> bool)
    requires forall i :: 0 <= i < |s| ==> !isSep(s[i])
    ensures Split(s, isSep) == [s]
  {
    if s != [] {
      SplitNoSeparator(s[1..], isSep);
      assert [s[0]] + s[1..] == s;
    }
  }

  /** The first separator ends the first field; splitting continues after it. */
  lemma {:induction false} SplitAtSeparator<T>(a: seq<T>, x: T, b: seq<T>, isSep: T -> bool)
    requires forall i :: 0 <= i < |a| ==> !isSep(a[i])
    requires isSep(x)
    ensures Split(a + [x] + b, isSep) == [a] + Split(b, isSep)
  {
    if a == [] {
      assert a + [x] + b == [x] + b;
      assert ([x] + b)[1..] == b;
    } else {
      var s := a + [x] + b;
      assert s[1..] == a[1..] + [x] + b;
      SplitAtSeparator(a[1..], x, b, isSep);
      assert [a[0]] + a[1..] == a;
    }
  }

  /** One element in front of a sequence: a new empty field, or the first field grows. */
  lemma SplitUnfold<T>(y: T, t: seq<T>, isSep: T -> bool)
    ensures Split([y] + t, isSep) ==
      if isSep(y) then [[]] + Split(t, isSep) else [[y] + Split(t, isSep)[0]] + Split(t, isSep)[1..]
  {
    assert ([y] + t)[0] == y;
    assert ([y] + t)[1..] == t;
  }

  /** A separator followed by a separator-free tail ends the split with that tail. */
  lemma {:induction false} SplitBeforeLast<T>(a: seq<T>, x: T, b: seq<T>, isSep: T -> bool)
    requires isSep(x)
    requires forall i :: 0 <= i < |b| ==> !isSep(b[i])
    ensures Split(a + [x] + b, isSep) == Split(a, isSep) + [b]
  {
    if a == [] {
      assert a + [x] + b == [x] + b;
      SplitUnfold(x, b, isSep);
      SplitNoSeparator(b, isSep);
    } else {
      var y, a' := a[0], a[1..];
      assert a == [y] + a';
      assert a + [x] + b == [y] + (a' + [x] + b);
      SplitBeforeLast(a', x, b, isSep);
      SplitUnfold(y, a' + [x] + b, isSep);
      SplitUnfold(y, a', isSep);
      SplitAppendField(y, Split(a', isSep), b, isSep);
    }
  }

  lemma SplitAppendField<T>(y: T, inner: seq<seq<T>>, b: seq<T>, isSep: T -> bool)
    requires inner != []
    ensures (if isSep(y) then [[]] + (inner + [b]) else [[y] + (inner + [b])[0]] + (inner + [b])[1..])
      == (if isSep(y) then [[]] + inner else [[y] + inner[0]] + inner[1..]) + [b]
  {
    if !isSep(y) {
      assert (inner + [b])[1..] == inner[1..] + [b];
    }
  }
}
