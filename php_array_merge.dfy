/**
 * PHP's array_merge on two arrays. String keys keep their first position and
 * take the value of the last array that has them; integer keys are never
 * overwritten: every integer-keyed value is appended and the integer keys are
 * renumbered 0, 1, 2, ... in order.
 */
module PhpArrayMerge {
  import opened Wrappers
  import opened Php

  /** The integer-keyed entries, in order. */
  function IntEntries(es: seq<Entry>): seq<Entry> {
    if es == [] then []
    else (if es[0].key.IntKey? then [es[0]] else []) + IntEntries(es[1..])
  }

  /** The values of `es`, in order. */
  function Values(es: seq<Entry>): (vs: seq<Value>)
    ensures |vs| == |es|
    ensures forall i :: 0 <= i < |es| ==> vs[i] == es[i].val
  {
    if es == [] then [] else [es[0].val] + Values(es[1..])
  }

  /** `vs` under the consecutive integer keys from, from + 1, ... */
  function Numbered(vs: seq<Value>, from: int): seq<Entry>
  {
    if vs == [] then [] else [Entry(IntKey(from), vs[0])] + Numbered(vs[1..], from + 1)
  }

  /** Every integer key of `es` is below `n`. */
  ghost predicate IntKeysBelow(es: seq<Entry>, n: int) {
    forall j :: IntKey(j) in KeysOf(es) ==> j < n
  }

  /**
   * Copies the entries of one argument into the result built so far; `next`
   * is the result's next free integer index.
   */
  function MergeInto(acc: seq<Entry>, next: int, es: seq<Entry>): seq<Entry>
    decreases |es|
  {
    if es == [] then acc
    else if es[0].key.IntKey? then MergeInto(acc + [Entry(IntKey(next), es[0].val)], next + 1, es[1..])
    else MergeInto(Set(acc, es[0].key, es[0].val), next, es[1..])
  }

  /** array_merge($a, $b); after copying `a`, the next free index is the number of its integer keys. */
  function MergeEntries(a: seq<Entry>, b: seq<Entry>): seq<Entry> {
    MergeInto(MergeInto([], 0, a), |IntEntries(a)|, b)
  }

  /** array_merge on two values: PHP 8 rejects an argument that is not an array. */
  function ArrayMerge(a: Value, b: Value): (r: Result<Value, Failure>)
    ensures r.Success? <==> a.Arr? && b.Arr?
    ensures r.Failure? ==> r.error == MergeArgument
  {
    if a.Arr? && b.Arr? then Success(Arr(MergeEntries(a.entries, b.entries)))
    else Failure(MergeArgument)
  }

  // ---- Lemmas ----

  lemma {:induction false} IntEntriesAppend(x: seq<Entry>, y: seq<Entry>)
    ensures IntEntries(x + y) == IntEntries(x) + IntEntries(y)
  {
    if x != [] {
      assert (x + y)[0] == x[0] && (x + y)[1..] == x[1..] + y;
      IntEntriesAppend(x[1..], y);
      var h := if x[0].key.IntKey? then [x[0]] else [];
      assert IntEntries(x + y) == h + IntEntries(x[1..] + y);
    } else {
      assert x + y == y;
    }
  }

  /** Assigning a string key leaves the integer-keyed entries alone. */
  lemma {:induction false} IntEntriesSetString(es: seq<Entry>, s: string, v: Value)
    ensures IntEntries(Set(es, StrKey(s), v)) == IntEntries(es)
  {
    if es != [] && es[0].key != StrKey(s) {
      IntEntriesSetString(es[1..], s, v);
    }
  }

  lemma {:induction false} NumberedAppend(x: seq<Value>, y: seq<Value>, from: int)
    ensures Numbered(x + y, from) == Numbered(x, from) + Numbered(y, from + |x|)
  {
    if x != [] {
      assert (x + y)[0] == x[0] && (x + y)[1..] == x[1..] + y;
      NumberedAppend(x[1..], y, from + 1);
      assert Numbered(x + y, from) == [Entry(IntKey(from), x[0])] + Numbered(x[1..] + y, from + 1);
    } else {
      assert x + y == y;
    }
  }

  /** One pass appends the integer-keyed values of `es` under next, next + 1, ... */
  lemma {:induction false} MergeIntoIntEntries(acc: seq<Entry>, next: int, es: seq<Entry>)
    ensures IntEntries(MergeInto(acc, next, es)) == IntEntries(acc) + Numbered(Values(IntEntries(es)), next)
    decreases |es|
  {
    if es != [] {
      var e := es[0];
      if e.key.IntKey? {
        var ne := Entry(IntKey(next), e.val);
        MergeIntoIntEntries(acc + [ne], next + 1, es[1..]);
        IntEntriesAppend(acc, [ne]);
        assert IntEntries([ne]) == [ne];
        assert IntEntries(es) == [e] + IntEntries(es[1..]);
        assert Values(IntEntries(es)) == [e.val] + Values(IntEntries(es[1..]));
      } else {
        MergeIntoIntEntries(Set(acc, e.key, e.val), next, es[1..]);
        IntEntriesSetString(acc, e.key.s, e.val);
        assert IntEntries(es) == IntEntries(es[1..]);
      }
    }
  }

  /** With distinct keys in `es`, a string key ends up with the value `es` gives it, if any. */
  lemma {:induction false} MergeIntoStringKey(acc: seq<Entry>, next: int, es: seq<Entry>, s: string)
    requires DistinctKeys(es)
    ensures Lookup(MergeInto(acc, next, es), StrKey(s)) ==
      if StrKey(s) in KeysOf(es) then Lookup(es, StrKey(s)) else Lookup(acc, StrKey(s))
    decreases |es|
  {
    if es != [] {
      var e := es[0];
      DistinctCons(e.key, KeysOf(es[1..]));
      if e.key.IntKey? {
        var ne := Entry(IntKey(next), e.val);
        MergeIntoStringKey(acc + [ne], next + 1, es[1..], s);
        LookupAppend(acc, ne, StrKey(s));
      } else {
        MergeIntoStringKey(Set(acc, e.key, e.val), next, es[1..], s);
      }
    }
  }

  /** One pass keeps the result a well-formed PHP array and its integer keys below the next index. */
  lemma {:induction false} MergeIntoWellFormed(acc: seq<Entry>, next: int, es: seq<Entry>)
    requires WellFormed(Arr(acc)) && IntKeysBelow(acc, next)
    requires forall e | e in es :: KeyOk(e.key) && WellFormed(e.val)
    ensures WellFormed(Arr(MergeInto(acc, next, es)))
    ensures IntKeysBelow(MergeInto(acc, next, es), next + |IntEntries(es)|)
    decreases |es|
  {
    if es != [] {
      var e := es[0];
      assert e in es;
      assert forall x | x in es[1..] :: x in es;
      if e.key.IntKey? {
        var ne := Entry(IntKey(next), e.val);
        var acc' := acc + [ne];
        KeysOfAppend(acc, ne);
        DistinctAppend(KeysOf(acc), IntKey(next));
        assert forall x | x in acc' :: x in acc || x == ne;
        MergeIntoWellFormed(acc', next + 1, es[1..]);
      } else {
        SetWellFormed(acc, e.key, e.val);
        MergeIntoWellFormed(Set(acc, e.key, e.val), next, es[1..]);
      }
    }
  }

  /** array_merge of well-formed arrays is a well-formed array. */
  lemma ArrayMergeWellFormed(a: seq<Entry>, b: seq<Entry>)
    requires WellFormed(Arr(a)) && WellFormed(Arr(b))
    ensures WellFormed(Arr(MergeEntries(a, b)))
  {
    MergeIntoWellFormed([], 0, a);
    MergeIntoWellFormed(MergeInto([], 0, a), |IntEntries(a)|, b);
  }

  /** A string key takes b's value when b has the key, and a's value otherwise. */
  lemma ArrayMergeStringKey(a: seq<Entry>, b: seq<Entry>, s: string)
    requires WellFormed(Arr(a)) && WellFormed(Arr(b))
    ensures Lookup(MergeEntries(a, b), StrKey(s)) ==
            if Lookup(b, StrKey(s)).Some? then Lookup(b, StrKey(s)) else Lookup(a, StrKey(s))
  {
    MergeIntoStringKey([], 0, a, s);
    MergeIntoStringKey(MergeInto([], 0, a), |IntEntries(a)|, b, s);
  }

  /** No integer-keyed value is lost or overwritten: a's then b's, renumbered from 0. */
  lemma ArrayMergeIntKeys(a: seq<Entry>, b: seq<Entry>)
    ensures IntEntries(MergeEntries(a, b)) == Numbered(Values(IntEntries(a)) + Values(IntEntries(b)), 0)
  {
    var first := MergeInto([], 0, a);
    var va, vb := Values(IntEntries(a)), Values(IntEntries(b));
    MergeIntoIntEntries([], 0, a);
    assert IntEntries(first) == Numbered(va, 0);
    MergeIntoIntEntries(first, |IntEntries(a)|, b);
    assert IntEntries(MergeEntries(a, b)) == Numbered(va, 0) + Numbered(vb, |va|);
    NumberedAppend(va, vb, 0);
  }
}
