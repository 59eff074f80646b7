/**
 * The PHP runtime values that the queue driver handles, and the PHP language
 * operations it applies to them: reading `$v['k']`, `isset($v['k'])`,
 * assigning `$v['k'] = x` and coercing a scalar to a string.
 *
 * A PHP array is an ORDERED map. It is modelled as a sequence of entries, so
 * that the position of a key (which decides the order of the fields in JSON
 * output) is part of the model.
 */
module Php {
  import opened Wrappers

  /** An array key: PHP keeps integer keys and string keys apart. */
  datatype Key = IntKey(i: int) | StrKey(s: string)

  /** The values that reach the driver: null, booleans, integers, strings, arrays. */
  datatype Value =
    | Null
    | Bool(b: bool)
    | Num(n: int)
    | Str(s: string)
    | Arr(entries: seq<Entry>)

  datatype Entry = Entry(key: Key, val: Value)

  /** The runtime errors PHP 8 raises in the operations modelled here. */
  datatype Failure =
    | StringOffset(key: string)  // reading or writing `$s['k']` on a string
    | ArrayToString              // an array given to json_decode, which takes a string
    | MergeArgument              // array_merge given an argument that is not an array
    | ScalarAsArray              // `$x['k'] = v` on true or on a number

  predicate IsDigit(c: char) {
    '0' <= c <= '9'
  }

  predicate AllDigits(s: string) {
    forall i :: 0 <= i < |s| ==> IsDigit(s[i])
  }

  /**
   * A string that PHP turns into an integer key when it is used as an array
   * key: a decimal integer with no leading zero and no plus sign; "-0" is not
   * one of them.
   */
  predicate IsIntString(s: string) {
    if |s| > 0 && s[0] == '-' then |s| > 1 && AllDigits(s[1..]) && s[1] != '0'
    else |s| > 0 && AllDigits(s) && (s[0] != '0' || s == "0")
  }

  /** A key as PHP stores it: an integer-like string is never a string key. */
  predicate KeyOk(k: Key) {
    k.StrKey? ==> !IsIntString(k.s)
  }

  function KeysOf(es: seq<Entry>): seq<Key> {
    if es == [] then [] else [es[0].key] + KeysOf(es[1..])
  }

  predicate Distinct(ks: seq<Key>) {
    forall i, j :: 0 <= i < j < |ks| ==> ks[i] != ks[j]
  }

  predicate DistinctKeys(es: seq<Entry>) {
    Distinct(KeysOf(es))
  }

  /**
   * A value PHP can actually hold: every array has each key once, its string
   * keys are not integer-like, and its elements are well formed in turn.
   */
  predicate WellFormed(v: Value) {
    match v
    case Arr(es) =>
      && DistinctKeys(es)
      && forall e | e in es :: KeyOk(e.key) && WellFormed(e.val)
    case _ => true
  }

  /** The value stored under key `k`, if any (the first entry with that key). */
  function Lookup(es: seq<Entry>, k: Key): (r: Option<Value>)
    ensures r.Some? <==> k in KeysOf(es)
    ensures r.Some? ==> Entry(k, r.value) in es
  {
    if es == [] then None
    else if es[0].key == k then Some(es[0].val)
    else Lookup(es[1..], k)
  }

  /**
   * `$a[k] = v`: an existing key keeps its position and gets the new value;
   * a new key is appended at the end.
   */
  function Set(es: seq<Entry>, k: Key, v: Value): (r: seq<Entry>)
    ensures KeysOf(r) == if k in KeysOf(es) then KeysOf(es) else KeysOf(es) + [k]
    ensures forall k' :: Lookup(r, k') == if k' == k then Some(v) else Lookup(es, k')
    ensures forall e | e in r :: e in es || e == Entry(k, v)
  {
    if es == [] then [Entry(k, v)]
    else if es[0].key == k then [Entry(k, v)] + es[1..]
    else [es[0]] + Set(es[1..], k, v)
  }

  /**
   * `$v['k']` for a literal, non-numeric key `k` on a value that is not a
   * string: a missing key, null, a boolean or a number reads as null. (On a
   * string PHP 8 raises an error instead; callers handle that case first.)
   */
  function Read(v: Value, k: string): (r: Value)
    ensures r != Null ==> v.Arr? && Entry(StrKey(k), r) in v.entries
    ensures v.Arr? && StrKey(k) !in KeysOf(v.entries) ==> r == Null
    ensures v.Arr? && StrKey(k) in KeysOf(v.entries) ==> Entry(StrKey(k), r) in v.entries
  {
    if v.Arr? then Lookup(v.entries, StrKey(k)).GetOr(Null) else Null
  }

  /** PHP's conversion of a value to bool, as `!$v` and `if ($v)` apply it. */
  predicate Truthy(v: Value) {
    match v
    case Null => false
    case Bool(b) => b
    case Num(n) => n != 0
    case Str(s) => s != "" && s != "0"
    case Arr(es) => es != []
  }

  /** `isset($v['k'])`: the key is present and its value is not null. */
  predicate Isset(v: Value, k: string)
    ensures Isset(v, k) <==> Read(v, k) != Null
  {
    && v.Arr?
    && Lookup(v.entries, StrKey(k)).Some?
    && Lookup(v.entries, StrKey(k)).value != Null
  }

  /**
   * `$v['k'] = x`: an array is updated; null and false become a fresh
   * one-entry array; writing into true, a number or a string is an error.
   */
  function WriteOffset(v: Value, k: string, x: Value): (r: Result<Value, Failure>)
    ensures r.Success? <==> v.Arr? || v.Null? || v == Bool(false)
    ensures v.Str? ==> r == Failure(StringOffset(k))
    ensures r.Success? ==> r.value.Arr? && Read(r.value, k) == x
  {
    match v
    case Arr(es) => Success(Arr(Set(es, StrKey(k), x)))
    case Null => Success(Arr([Entry(StrKey(k), x)]))
    case Bool(b) => if b then Failure(ScalarAsArray) else Success(Arr([Entry(StrKey(k), x)]))
    case Num(_) => Failure(ScalarAsArray)
    case Str(_) => Failure(StringOffset(k))
  }

  /** `$v['k'] = x` leaves every other key reading as before. */
  lemma WriteOffsetOtherKeys(v: Value, k: string, x: Value, other: string)
    requires WriteOffset(v, k, x).Success? && other != k
    ensures Read(WriteOffset(v, k, x).value, other) == Read(v, other)
  {
  }

  function DigitChar(d: nat): char
    requires d < 10
  {
    "0123456789"[d]
  }

  /** The number a string of decimal digits denotes. */
  function DecimalValue(t: string): nat
    requires AllDigits(t)
  {
    if t == [] then 0 else DecimalValue(t[..|t| - 1]) * 10 + (t[|t| - 1] as int - '0' as int)
  }

  /** The decimal digits of `n`, with no leading zero. */
  function NatText(n: nat): (t: string)
    ensures |t| >= 1 && AllDigits(t)
    ensures t[0] == '0' <==> n == 0
    ensures DecimalValue(t) == n
    decreases n
  {
    if n < 10 then [DigitChar(n)] else NatText(n / 10) + [DigitChar(n % 10)]
  }

  /** The string a scalar becomes where PHP expects a string. */
  function ScalarText(v: Value): (r: string)
    requires !v.Arr?
    ensures v.Num? ==> IsIntString(r)
    ensures v.Num? && v.n >= 0 ==> AllDigits(r) && DecimalValue(r) == v.n
    ensures v.Num? && v.n < 0 ==> |r| >= 2 && r[0] == '-' && AllDigits(r[1..]) && DecimalValue(r[1..]) == -v.n
    ensures v == Bool(true) ==> r == "1"
    ensures v.Str? ==> r == v.s
    ensures v.Null? || v == Bool(false) ==> r == ""
  {
    match v
    case Null => ""
    case Bool(b) => if b then "1" else ""
    case Num(n) => if n < 0 then "-" + NatText(-n) else NatText(n)
    case Str(s) => s
  }

  /** The string a function with a string parameter receives: PHP 8 refuses an array. */
  function StringArgument(v: Value): (r: Result<string, Failure>)
    ensures r.Failure? <==> v.Arr?
  {
    if v.Arr? then Failure(ArrayToString) else Success(ScalarText(v))
  }

  // ---- Facts about the array operations ----

  lemma {:induction false} DistinctCons(k: Key, ks: seq<Key>)
    ensures Distinct([k] + ks) <==> k !in ks && Distinct(ks)
  {
    var s := [k] + ks;
    if Distinct(s) {
      forall i, j | 0 <= i < j < |ks| ensures ks[i] != ks[j] {
        assert ks[i] == s[i + 1] && ks[j] == s[j + 1];
      }
      forall j | 0 <= j < |ks| ensures ks[j] != k {
        assert s[0] == k && s[j + 1] == ks[j];
      }
    }
    if k !in ks && Distinct(ks) {
      forall i, j | 0 <= i < j < |s| ensures s[i] != s[j] {
        if i == 0 {
          assert s[j] == ks[j - 1];
        } else {
          assert s[i] == ks[i - 1] && s[j] == ks[j - 1];
        }
      }
    }
  }

  lemma {:induction false} DistinctAppend(ks: seq<Key>, k: Key)
    requires Distinct(ks) && k !in ks
    ensures Distinct(ks + [k])
  {
    var s := ks + [k];
    forall i, j | 0 <= i < j < |s| ensures s[i] != s[j] {
      if j == |ks| {
        assert s[i] == ks[i];
      } else {
        assert s[i] == ks[i] && s[j] == ks[j];
      }
    }
  }

  /** The keys are the entries' keys, position by position. */
  lemma {:induction false} KeysOfMembers(es: seq<Entry>)
    ensures |KeysOf(es)| == |es|
    ensures forall i :: 0 <= i < |es| ==> KeysOf(es)[i] == es[i].key
    ensures forall e | e in es :: e.key in KeysOf(es)
  {
    if es != [] {
      KeysOfMembers(es[1..]);
      assert forall e | e in es :: e == es[0] || e in es[1..];
    }
  }

  /** In an array with distinct keys, every entry is what a lookup of its key finds. */
  lemma {:induction false} LookupFindsEntry(es: seq<Entry>, e: Entry)
    requires DistinctKeys(es) && e in es
    ensures Lookup(es, e.key) == Some(e.val)
  {
    DistinctCons(es[0].key, KeysOf(es[1..]));
    if es[0] != e {
      assert e in es[1..];
      KeysOfMembers(es[1..]);
      LookupFindsEntry(es[1..], e);
    }
  }

  /** Assigning a fresh, PHP-shaped key and a well-formed value keeps an array well formed. */
  lemma SetWellFormed(es: seq<Entry>, k: Key, v: Value)
    requires WellFormed(Arr(es)) && KeyOk(k) && WellFormed(v)
    ensures WellFormed(Arr(Set(es, k, v)))
  {
    var r := Set(es, k, v);
    if k !in KeysOf(es) {
      DistinctAppend(KeysOf(es), k);
    }
    assert DistinctKeys(r);
    assert forall e | e in r :: KeyOk(e.key) && WellFormed(e.val);
  }

  /** A key that starts with neither a digit nor a minus sign stays a string key. */
  lemma NotIntString(s: string)
    requires |s| > 0 && s[0] != '-' && !IsDigit(s[0])
    ensures !IsIntString(s)
  {
    assert !AllDigits(s) by { assert !IsDigit(s[0]); }
  }

  /** Whatever is stored in a well-formed array is well formed. */
  lemma LookupWellFormed(es: seq<Entry>, k: Key)
    requires WellFormed(Arr(es)) && Lookup(es, k).Some?
    ensures WellFormed(Lookup(es, k).value)
  {
    assert Entry(k, Lookup(es, k).value) in es;
  }

  lemma {:induction false} KeysOfAppend(es: seq<Entry>, e: Entry)
    ensures KeysOf(es + [e]) == KeysOf(es) + [e.key]
  {
    if es != [] {
      assert (es + [e])[1..] == es[1..] + [e];
      KeysOfAppend(es[1..], e);
    }
  }

  /** Appending an entry does not change what the keys already present look up. */
  lemma {:induction false} LookupAppend(es: seq<Entry>, e: Entry, k: Key)
    ensures Lookup(es + [e], k) ==
      if k in KeysOf(es) then Lookup(es, k) else if e.key == k then Some(e.val) else None
  {
    if es != [] {
      assert (es + [e])[1..] == es[1..] + [e];
      LookupAppend(es[1..], e, k);
    }
  }
}
