/**
 * JSON encoding and decoding as the driver uses them. The byte-level codec is
 * not modelled: it is a pair of functions that the model is given, together
 * with the laws PHP's json_encode/json_decode($s, true) obey on the values
 * PHP can hold.
 */
module Json {
  import opened Wrappers
  import opened Php

  /** `encode` is json_encode with the driver's flags; `decode` is json_decode($s, true), None on invalid JSON. */
  datatype Codec = Codec(encode: Value -> string, decode: string -> Option<Value>)

  /**
   * Decoding an encoded PHP value gives it back, and whatever is decoded is a
   * value PHP can hold.
   */
  ghost predicate Lawful(c: Codec) {
    && (forall v :: WellFormed(v) ==> c.decode(c.encode(v)) == Some(v))
    && (forall s :: c.decode(s).Some? ==> WellFormed(c.decode(s).value))
  }

  /** json_decode($s, true) without JSON_THROW_ON_ERROR: invalid JSON yields null. */
  function JsonDecode(c: Codec, s: string): (v: Value)
    ensures Lawful(c) ==> WellFormed(v)
    ensures c.decode(s).None? ==> v == Null
  {
    c.decode(s).GetOr(Null)
  }

  /** Decoding what was encoded gives the value back. */
  lemma DecodeEncoded(c: Codec, v: Value)
    requires Lawful(c) && WellFormed(v)
    ensures JsonDecode(c, c.encode(v)) == v
  {
  }
}
