/**
 * A stand-in for the compact serialisation of a signed JWT (RFC 7515, section 7.1).
 *
 * The library's real encoding (base64url segments and an HMAC-SHA256 signature) is not
 * part of this model. A token is a claims record plus the identity of the key that
 * signed it; its wire form is four fields, each escaped and terminated by '.'.
 * What matters to the rest of the model is proved here: parsing with a key accepts
 * exactly the wire forms of tokens signed with that key, and nothing else.
 */
module Compact {
  import opened Wrappers

  /** The identity of a signing key: which key signed a token, not the secret itself. */
  type Key = string

  /** The registered claims a token carries, and the key it was signed with. */
  datatype Token = Token(subject: string, issuedAt: int, expiration: int, keyId: Key)

  datatype JwtError =
    | Malformed         // not a compact token at all
    | SignatureInvalid  // well formed, but signed with another key

  const Sep: char := '.'
  const Esc: char := '\\'

  // ---------------------------------------------------------------------------
  // Escaped fields

  /** Escapes every separator and escape character of `s`. */
  function Escape(s: string): string {
    if s == [] then []
    else (if s[0] == Sep || s[0] == Esc then [Esc, s[0]] else [s[0]]) + Escape(s[1..])
  }

  /** One field in wire form: escaped and terminated. */
  function Field(s: string): string {
    Escape(s) + [Sep]
  }

  /** Reads one field up to its first unescaped separator; None if there is none. */
  function SplitField(s: string): Option<(string, string)>
    decreases |s|
  {
    if s == [] then None
    else if s[0] == Sep then Some(([], s[1..]))
    else if s[0] == Esc then
      if |s| >= 2 && (s[1] == Sep || s[1] == Esc) then
        var p :- SplitField(s[2..]);
        Some(([s[1]] + p.0, p.1))
      else None
    else
      var p :- SplitField(s[1..]);
      Some(([s[0]] + p.0, p.1))
  }

  lemma {:induction false} SplitFieldOfField(x: string, rest: string)
    ensures SplitField(Field(x) + rest) == Some((x, rest))
  {
    if x == [] {
      assert Field(x) + rest == [Sep] + rest;
      assert ([Sep] + rest)[1..] == rest;
    } else {
      var head := if x[0] == Sep || x[0] == Esc then [Esc, x[0]] else [x[0]];
      var s := Field(x) + rest;
      assert s == head + (Field(x[1..]) + rest);
      SplitFieldOfField(x[1..], rest);
      assert s[|head|..] == Field(x[1..]) + rest;
      assert [x[0]] + x[1..] == x;
    }
  }

  lemma {:induction false} SplitFieldIsField(s: string)
    ensures SplitField(s).Some? ==> s == Field(SplitField(s).value.0) + SplitField(s).value.1
    decreases |s|
  {
    if s != [] && s[0] != Sep {
      if s[0] == Esc {
        if |s| >= 2 && (s[1] == Sep || s[1] == Esc) {
          SplitFieldIsField(s[2..]);
          if SplitField(s[2..]).Some? {
            var p := SplitField(s[2..]).value;
            assert Field([s[1]] + p.0) == [Esc, s[1]] + Field(p.0) by {
              assert ([s[1]] + p.0)[1..] == p.0;
            }
            assert s == [Esc, s[1]] + s[2..];
          }
        }
      } else {
        SplitFieldIsField(s[1..]);
        if SplitField(s[1..]).Some? {
          var p := SplitField(s[1..]).value;
          assert Field([s[0]] + p.0) == [s[0]] + Field(p.0) by {
            assert ([s[0]] + p.0)[1..] == p.0;
          }
          assert s == [s[0]] + s[1..];
        }
      }
    } else if s != [] {
      assert s == [Sep] + s[1..];
    }
  }

  // ---------------------------------------------------------------------------
  // Decimal integers (the NumericDate claims are written as numbers)

  predicate IsDigit(c: char) { '0' <= c <= '9' }

  function Digit(d: nat): (c: char)
    requires d < 10
    ensures IsDigit(c)
  {
    "0123456789"[d]
  }

  function DigitValue(c: char): (d: nat)
    requires IsDigit(c)
    ensures d < 10
  {
    (c as int) - ('0' as int)
  }

  predicate AllDigits(s: string) {
    forall i :: 0 <= i < |s| ==> IsDigit(s[i])
  }

  /** Canonical decimal digits: non-empty, no leading zero unless the number is 0. */
  predicate CanonicalDigits(s: string) {
    |s| > 0 && AllDigits(s) && (s[0] != '0' || |s| == 1)
  }

  /** Decimal digits of `n`, most significant first. */
  function NatText(n: nat): string
    decreases n
  {
    if n < 10 then [Digit(n)] else NatText(n / 10) + [Digit(n % 10)]
  }

  /** The number written by a string of decimal digits. */
  function DigitsValue(s: string): nat
    requires AllDigits(s)
    decreases |s|
  {
    if s == [] then 0 else DigitsValue(s[..|s| - 1]) * 10 + DigitValue(s[|s| - 1])
  }

  function IntText(i: int): string {
    if i < 0 then ['-'] + NatText(-i) else NatText(i)
  }

  function ParseNat(s: string): Option<nat> {
    if CanonicalDigits(s) then Some(DigitsValue(s)) else None
  }

  function ParseInt(s: string): Option<int> {
    if s != [] && s[0] == '-' then
      var n :- ParseNat(s[1..]);
      var magnitude: int := n;
      if magnitude == 0 then None else Some(-magnitude)
    else
      var n :- ParseNat(s);
      Some(n)
  }

  lemma DigitRoundTrip(d: nat)
    requires d < 10
    ensures DigitValue(Digit(d)) == d
  {
  }

  lemma {:induction false} NatTextCanonical(n: nat)
    ensures CanonicalDigits(NatText(n)) && DigitsValue(NatText(n)) == n
    ensures NatText(n)[0] == '0' <==> n == 0
    decreases n
  {
    DigitRoundTrip(n % 10);
    if n >= 10 {
      NatTextCanonical(n / 10);
      var s := NatText(n);
      assert s[..|s| - 1] == NatText(n / 10);
      assert s[0] == NatText(n / 10)[0];
    }
  }

  lemma {:induction false} DigitsValuePositive(s: string)
    requires CanonicalDigits(s) && s[0] != '0'
    ensures DigitsValue(s) > 0
    decreases |s|
  {
    if |s| == 1 {
      assert DigitsValue(s) == DigitValue(s[0]);
    } else {
      DigitsValuePositive(s[..|s| - 1]);
    }
  }

  lemma {:induction false} DigitsValueText(s: string)
    requires CanonicalDigits(s)
    ensures NatText(DigitsValue(s)) == s
    decreases |s|
  {
    var last := DigitValue(s[|s| - 1]);
    assert Digit(last) == s[|s| - 1];
    if |s| == 1 {
      assert DigitsValue(s) == last;
      assert s == [s[0]];
    } else {
      var init := s[..|s| - 1];
      DigitsValuePositive(init);
      DigitsValueText(init);
      var v := DigitsValue(s);
      assert v / 10 == DigitsValue(init) && v % 10 == last;
      assert s == init + [s[|s| - 1]];
    }
  }

  lemma IntTextRoundTrip(i: int)
    ensures ParseInt(IntText(i)) == Some(i)
  {
    if i < 0 {
      NatTextCanonical(-i);
      assert (['-'] + NatText(-i))[1..] == NatText(-i);
    } else {
      NatTextCanonical(i);
    }
  }

  lemma IntTextOfParse(s: string)
    ensures ParseInt(s).Some? ==> IntText(ParseInt(s).value) == s
  {
    if s != [] && s[0] == '-' {
      if ParseNat(s[1..]).Some? {
        DigitsValueText(s[1..]);
        assert s == ['-'] + s[1..];
      }
    } else if ParseNat(s).Some? {
      DigitsValueText(s);
    }
  }

  // ---------------------------------------------------------------------------
  // Tokens

  /** The wire form of a token. */
  function Wire(t: Token): string {
    Field(t.subject) + Field(IntText(t.issuedAt)) + Field(IntText(t.expiration)) + Field(t.keyId)
  }

  /** Reads the four fields of a wire form, whoever signed it. */
  function ReadToken(s: string): Option<Token> {
    var f1 :- SplitField(s);
    var f2 :- SplitField(f1.1);
    var f3 :- SplitField(f2.1);
    var f4 :- SplitField(f3.1);
    if f4.1 != [] then None
    else
      var issuedAt :- ParseInt(f2.0);
      var expiration :- ParseInt(f3.0);
      Some(Token(f1.0, issuedAt, expiration, f4.0))
  }

  /**
   * Parses a wire form and checks it was signed with `key`: a malformed string is
   * rejected, and so is a well-formed token signed with any other key.
   */
  function Parse(key: Key, s: string): Result<Token, JwtError> {
    match ReadToken(s)
    case None => Failure(Malformed)
    case Some(t) => if t.keyId == key then Success(t) else Failure(SignatureInvalid)
  }

  lemma ReadWire(t: Token)
    ensures ReadToken(Wire(t)) == Some(t)
  {
    var a, b, c, d := t.subject, IntText(t.issuedAt), IntText(t.expiration), t.keyId;
    assert Wire(t) == Field(a) + (Field(b) + (Field(c) + (Field(d) + [])));
    SplitFieldOfField(a, Field(b) + (Field(c) + (Field(d) + [])));
    SplitFieldOfField(b, Field(c) + (Field(d) + []));
    SplitFieldOfField(c, Field(d) + []);
    SplitFieldOfField(d, []);
    IntTextRoundTrip(t.issuedAt);
    IntTextRoundTrip(t.expiration);
  }

  lemma FieldSplit(s: string, x: string, rest: string)
    requires SplitField(s) == Some((x, rest))
    ensures s == Field(x) + rest
  {
    SplitFieldIsField(s);
  }

  lemma WireOfRead(s: string)
    ensures ReadToken(s).Some? ==> s == Wire(ReadToken(s).value)
  {
    if ReadToken(s).Some? {
      var t := ReadToken(s).value;
      var f1 := SplitField(s).value;
      var f2 := SplitField(f1.1).value;
      var f3 := SplitField(f2.1).value;
      var f4 := SplitField(f3.1).value;
      assert f4.1 == [];
      assert t == Token(f1.0, ParseInt(f2.0).value, ParseInt(f3.0).value, f4.0);
      IntTextOfParse(f2.0);
      IntTextOfParse(f3.0);
      FieldSplit(s, f1.0, f1.1);
      FieldSplit(f1.1, f2.0, f2.1);
      FieldSplit(f2.1, f3.0, f3.1);
      FieldSplit(f3.1, f4.0, f4.1);
      var a, b, c, d := Field(f1.0), Field(f2.0), Field(f3.0), Field(f4.0);
      assert Wire(t) == a + b + c + d;
      assert s == a + (b + (c + (d + [])));
    }
  }

  /** Parsing with `key` succeeds on `s` exactly when `s` is the wire form of a token signed with `key`. */
  lemma ParseCharacterised(key: Key, s: string, t: Token)
    ensures Parse(key, s) == Success(t) <==> s == Wire(t) && t.keyId == key
  {
    WireOfRead(s);
    if s == Wire(t) {
      ReadWire(t);
    }
  }

  /** A token signed with one key never parses under another. */
  lemma ForeignSignatureRejected(key: Key, t: Token)
    requires t.keyId != key
    ensures Parse(key, Wire(t)) == Failure(SignatureInvalid)
  {
    ReadWire(t);
  }

  /** A string with no separator at all is not a token. */
  lemma NoSeparatorMalformed(key: Key, s: string)
    requires Sep !in s
    ensures Parse(key, s) == Failure(Malformed)
  {
    SplitFieldIsField(s);
  }
}
