/**
 * PHP's explode and implode on a one-character separator, and the "text
 * after the last separator" that the queue driver takes from a queue URL.
 */
module PhpStrings {

  /** explode(sep, s): the pieces of `s` between separators; never empty. */
  function Explode(sep: char, s: string): (parts: seq<string>)
    ensures |parts| >= 1
    ensures forall i :: 0 <= i < |parts| ==> sep !in parts[i]
  {
    if s == [] then [""]
    else if s[0] == sep then [""] + Explode(sep, s[1..])
    else
      var rest := Explode(sep, s[1..]);
      [[s[0]] + rest[0]] + rest[1..]
  }

  /** implode(sep, parts) */
  function Implode(sep: char, parts: seq<string>): string
    requires |parts| >= 1
  {
    if |parts| == 1 then parts[0] else parts[0] + [sep] + Implode(sep, parts[1..])
  }

  /** The last element, as end() and array_pop() return it. */
  function Last(parts: seq<string>): string
    requires |parts| >= 1
  {
    parts[|parts| - 1]
  }

  /** `t` is the text of `s` after its last `sep` (all of `s` when it has none). */
  ghost predicate TextAfterLast(sep: char, s: string, t: string) {
    && |t| <= |s|
    && s[|s| - |t|..] == t
    && sep !in t
    && (|t| == |s| || s[|s| - |t| - 1] == sep)
  }

  /** Joining the pieces again gives back the string. */
  lemma {:induction false} ImplodeExplode(sep: char, s: string)
    ensures Implode(sep, Explode(sep, s)) == s
  {
    if s != [] {
      ImplodeExplode(sep, s[1..]);
      var rest := Explode(sep, s[1..]);
      if s[0] == sep {
        assert Explode(sep, s)[1..] == rest;
      } else {
        var parts := Explode(sep, s);
        if |rest| > 1 {
          assert parts[1..] == rest[1..];
          assert Implode(sep, rest) == rest[0] + [sep] + Implode(sep, rest[1..]);
        }
      }
    }
  }

  /** A string without the separator is a single piece. */
  lemma {:induction false} ExplodeNoSeparator(sep: char, s: string)
    requires sep !in s
    ensures Explode(sep, s) == [s]
  {
    if s != [] {
      assert sep !in s[1..] by {
        forall i | 0 <= i < |s[1..]| ensures s[1..][i] != sep { assert s[1..][i] == s[i + 1]; }
      }
      ExplodeNoSeparator(sep, s[1..]);
      assert s[0] != sep by { assert s[0] in s; }
      assert [s[0]] + s[1..] == s;
    }
  }

  /** Splitting at a separator splits the pieces there. */
  lemma {:induction false} ExplodeAround(sep: char, a: string, b: string)
    ensures Explode(sep, a + [sep] + b) == Explode(sep, a) + Explode(sep, b)
  {
    var s := a + [sep] + b;
    if a == [] {
      assert s[1..] == b;
    } else {
      assert s[0] == a[0] && s[1..] == a[1..] + [sep] + b;
      ExplodeAround(sep, a[1..], b);
    }
  }

  /** Splitting the join of separator-free pieces gives back the pieces. */
  lemma {:induction false} ExplodeImplode(sep: char, parts: seq<string>)
    requires |parts| >= 1
    requires forall i :: 0 <= i < |parts| ==> sep !in parts[i]
    ensures Explode(sep, Implode(sep, parts)) == parts
  {
    ExplodeNoSeparator(sep, parts[0]);
    if |parts| > 1 {
      ExplodeImplode(sep, parts[1..]);
      ExplodeAround(sep, parts[0], Implode(sep, parts[1..]));
    }
  }

  lemma {:induction false} ImplodeSnoc(sep: char, parts: seq<string>)
    requires |parts| >= 2
    ensures Implode(sep, parts) == Implode(sep, parts[..|parts| - 1]) + [sep] + Last(parts)
  {
    if |parts| > 2 {
      ImplodeSnoc(sep, parts[1..]);
      assert parts[1..][..|parts| - 2] == parts[..|parts| - 1][1..];
    }
  }

  /** The last piece of explode is exactly the text after the last separator. */
  lemma LastPieceIsTextAfterLast(sep: char, s: string)
    ensures TextAfterLast(sep, s, Last(Explode(sep, s)))
  {
    var parts := Explode(sep, s);
    var k := Last(parts);
    ImplodeExplode(sep, s);
    if |parts| >= 2 {
      ImplodeSnoc(sep, parts);
      var front := Implode(sep, parts[..|parts| - 1]);
      assert s == front + [sep] + k;
      assert s[|s| - |k| - 1] == sep;
      assert s[|s| - |k|..] == k;
    }
  }

  /** A suffix shorter than the text after the last separator does not follow a separator. */
  lemma ShorterNotAfterLast(sep: char, s: string, t: string, u: string)
    requires TextAfterLast(sep, s, u) && |t| < |u|
    ensures !TextAfterLast(sep, s, t)
  {
    assert s[|s| - |t| - 1] == u[|u| - |t| - 1];
  }

  /** Only one suffix of `s` is the text after its last separator. */
  lemma TextAfterLastUnique(sep: char, s: string, t: string, u: string)
    requires TextAfterLast(sep, s, t) && TextAfterLast(sep, s, u)
    ensures t == u
  {
    if |t| < |u| {
      ShorterNotAfterLast(sep, s, t, u);
    } else if |u| < |t| {
      ShorterNotAfterLast(sep, s, u, t);
    }
  }

  /** The last piece of explode, and nothing else, is the text after the last separator. */
  lemma LastPieceCharacterised(sep: char, s: string, t: string)
    ensures TextAfterLast(sep, s, t) <==> t == Last(Explode(sep, s))
  {
    LastPieceIsTextAfterLast(sep, s);
    if TextAfterLast(sep, s, t) {
      TextAfterLastUnique(sep, s, t, Last(Explode(sep, s)));
    }
  }

  /** Whatever precedes the last separator does not change the last piece. */
  lemma LastPieceIgnoresPrefix(sep: char, prefix: string, s: string)
    ensures Last(Explode(sep, prefix + [sep] + s)) == Last(Explode(sep, s))
  {
    ExplodeAround(sep, prefix, s);
  }
}
