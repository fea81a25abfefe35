/** UTF-8 as section 3 of RFC 3629 defines it, and the state a streaming
    `TextDecoder` (default options, `decode(chunk, {stream: true})`) keeps
    between calls: the bytes of a sequence that is not complete yet, and
    whether the first scalar of the stream has been seen (a leading U+FEFF
    is dropped once). `TextEncoder.encode` is `Encode`. */
module Utf8 {

  type Byte = b: int | 0 <= b < 0x100

  /** A Unicode scalar value: a code point that is not a surrogate. */
  type Scalar = cp: int | 0 <= cp < 0xD800 || 0xE000 <= cp < 0x11_0000

  const ReplacementCharacter: Scalar := 0xFFFD
  const ByteOrderMark: Scalar := 0xFEFF

  /** The number of bytes of the sequence that `lead` opens, or 0 when
      `lead` cannot open one (a continuation byte, C0, C1, F5..FF). */
  function SequenceLength(lead: Byte): (n: nat)
    ensures n <= 4
  {
    if lead < 0x80 then 1
    else if 0xC2 <= lead < 0xE0 then 2
    else if 0xE0 <= lead < 0xF0 then 3
    else if 0xF0 <= lead < 0xF5 then 4
    else 0
  }

  /** The range allowed for the byte at position `i` (1 and up) of the
      sequence opened by `lead`: the second byte after E0, ED, F0 and F4 is
      narrowed so that overlong forms, surrogates and values beyond
      U+10FFFF are excluded. */
  function LowerBound(lead: Byte, i: nat): Byte {
    if i == 1 && lead == 0xE0 then 0xA0
    else if i == 1 && lead == 0xF0 then 0x90
    else 0x80
  }

  function UpperBound(lead: Byte, i: nat): Byte {
    if i == 1 && lead == 0xED then 0x9F
    else if i == 1 && lead == 0xF4 then 0x8F
    else 0xBF
  }

  predicate Fits(lead: Byte, i: nat, b: Byte) {
    LowerBound(lead, i) <= b <= UpperBound(lead, i)
  }

  /** One complete well-formed sequence. */
  predicate IsSequence(s: seq<Byte>) {
    0 < |s| && SequenceLength(s[0]) == |s| &&
    forall j | 1 <= j < |s| :: Fits(s[0], j, s[j])
  }

  /** A non-empty proper prefix of a well-formed sequence: what a stream
      cut inside a character ends with. */
  predicate IsIncomplete(s: seq<Byte>) {
    0 < |s| < SequenceLength(s[0]) &&
    forall j | 1 <= j < |s| :: Fits(s[0], j, s[j])
  }

  /** What a decoder may hold back between chunks. */
  predicate IsCarry(s: seq<Byte>) {
    s == [] || IsIncomplete(s)
  }

  /** Complete well-formed sequences, one after another. */
  predicate IsWellFormed(s: seq<Byte>)
    decreases |s|
  {
    s == [] ||
    (0 < SequenceLength(s[0]) <= |s| &&
     IsSequence(s[..SequenceLength(s[0])]) &&
     IsWellFormed(s[SequenceLength(s[0])..]))
  }

  /** Well-formed, except that the last sequence may be cut short. */
  predicate IsWellFormedPrefix(s: seq<Byte>)
    decreases |s|
  {
    s == [] || IsIncomplete(s) ||
    (0 < SequenceLength(s[0]) <= |s| &&
     IsSequence(s[..SequenceLength(s[0])]) &&
     IsWellFormedPrefix(s[SequenceLength(s[0])..]))
  }

  /** The six payload bits of a continuation byte. */
  function Payload(b: Byte): int {
    b as int - 0x80
  }

  /** The scalar a well-formed sequence encodes. */
  function ScalarOf(s: seq<Byte>): (cp: Scalar)
    requires IsSequence(s)
    ensures |s| == 1 ==> cp < 0x80
    ensures |s| == 2 ==> 0x80 <= cp < 0x800
    ensures |s| == 3 ==> 0x800 <= cp < 0x1_0000
    ensures |s| == 4 ==> 0x1_0000 <= cp
  {
    if |s| == 1 then s[0]
    else if |s| == 2 then (s[0] as int - 0xC0) * 0x40 + Payload(s[1])
    else if |s| == 3 then ((s[0] as int - 0xE0) * 0x40 + Payload(s[1])) * 0x40 + Payload(s[2])
    else (((s[0] as int - 0xF0) * 0x40 + Payload(s[1])) * 0x40 + Payload(s[2])) * 0x40 + Payload(s[3])
  }

  /** The shortest sequence for `cp`; decoding it gives `cp` back. */
  function EncodeScalar(cp: Scalar): (s: seq<Byte>)
    ensures IsSequence(s) && ScalarOf(s) == cp
  {
    if cp < 0x80 then [cp]
    else if cp < 0x800 then TwoByteForm(cp)
    else if cp < 0x1_0000 then ThreeByteForm(cp)
    else FourByteForm(cp)
  }

  function TwoByteForm(cp: int): (s: seq<Byte>)
    requires 0x80 <= cp < 0x800
    ensures IsSequence(s) && ScalarOf(s) == cp
  {
    var q1, d0 := cp / 0x40, cp % 0x40;
    assert 2 <= q1 < 0x20;
    [0xC0 + q1, 0x80 + d0]
  }

  function ThreeByteForm(cp: int): (s: seq<Byte>)
    requires 0x800 <= cp < 0x1_0000 && !(0xD800 <= cp < 0xE000)
    ensures IsSequence(s) && ScalarOf(s) == cp
  {
    var q1, d0 := cp / 0x40, cp % 0x40;
    var q2, d1 := q1 / 0x40, q1 % 0x40;
    assert 0x20 <= q1 < 0x400;
    assert q2 < 0x10 && (q2 == 0 ==> d1 >= 0x20) && (q2 == 0xD ==> d1 < 0x20);
    [0xE0 + q2, 0x80 + d1, 0x80 + d0]
  }

  function FourByteForm(cp: int): (s: seq<Byte>)
    requires 0x1_0000 <= cp < 0x11_0000
    ensures IsSequence(s) && ScalarOf(s) == cp
  {
    var q1, d0 := cp / 0x40, cp % 0x40;
    var q2, d1 := q1 / 0x40, q1 % 0x40;
    var q3, d2 := q2 / 0x40, q2 % 0x40;
    assert q1 < 0x4400 && 0x10 <= q2 < 0x110;
    assert q3 <= 4 && (q3 == 0 ==> d2 >= 0x10) && (q3 == 4 ==> d2 < 0x10);
    [0xF0 + q3, 0x80 + d2, 0x80 + d1, 0x80 + d0]
  }

  /** Splitting off the last base-64 digit undoes appending it. */
  lemma DigitSplit(q: int, d: int)
    requires 0 <= q && 0 <= d < 0x40
    ensures (q * 0x40 + d) / 0x40 == q && (q * 0x40 + d) % 0x40 == d
  {
  }

  /** `TextEncoder.encode`: the sequences of the scalars, in order. */
  function Encode(text: seq<Scalar>): (bytes: seq<Byte>)
    ensures |text| <= |bytes|
    decreases |text|
  {
    if text == [] then [] else EncodeScalar(text[0]) + Encode(text[1..])
  }

  /** The bytes, counted from the lead byte and starting at `i`, that agree
      with a well-formed sequence opened by `s[0]`, up to `n` of them. */
  function MatchLength(s: seq<Byte>, n: nat, i: nat): (m: nat)
    requires 1 <= i <= n && i <= |s|
    requires forall j | 1 <= j < i :: Fits(s[0], j, s[j])
    ensures i <= m <= n && m <= |s|
    ensures forall j | 1 <= j < m :: Fits(s[0], j, s[j])
    ensures m < n && m < |s| ==> !Fits(s[0], m, s[m])
    decreases n - i
  {
    if i < n && i < |s| && Fits(s[0], i, s[i]) then MatchLength(s, n, i + 1) else i
  }

  /** Decodes every complete sequence of `buf` in order. An incomplete
      sequence at the very end is not decoded but returned as the carry.
      A lead byte that opens nothing, or a sequence broken by a byte that
      does not fit, yields one U+FFFD, and decoding resumes at the byte
      that did not fit. */
  function DecodeBytes(buf: seq<Byte>): (r: (seq<Scalar>, seq<Byte>))
    ensures IsCarry(r.1)
    ensures |r.1| <= |buf| && r.1 == buf[|buf| - |r.1|..]
    decreases |buf|
  {
    if buf == [] then ([], [])
    else
      var n := SequenceLength(buf[0]);
      if n == 0 then
        var rest := DecodeBytes(buf[1..]);
        ([ReplacementCharacter] + rest.0, rest.1)
      else
        var m := MatchLength(buf, n, 1);
        if m == n then
          var rest := DecodeBytes(buf[n..]);
          ([ScalarOf(buf[..n])] + rest.0, rest.1)
        else if m == |buf| then
          ([], buf)
        else
          var rest := DecodeBytes(buf[m..]);
          ([ReplacementCharacter] + rest.0, rest.1)
  }

  /** What a `TextDecoder` remembers between streaming calls. */
  datatype DecoderState = DecoderState(pending: seq<Byte>, bomSeen: bool)

  const FreshDecoder := DecoderState([], false)

  /** One `decode(chunk, {stream: true})` call: the pending bytes and the
      chunk are decoded together; the first scalar of the whole stream is
      dropped if it is U+FEFF. */
  function DecodeChunk(st: DecoderState, chunk: seq<Byte>): (r: (seq<Scalar>, DecoderState))
    ensures IsCarry(r.1.pending) && |r.1.pending| <= 3
    ensures r.1.bomSeen <==> st.bomSeen || DecodeBytes(st.pending + chunk).0 != []
  {
    var (text, carry) := DecodeBytes(st.pending + chunk);
    if !st.bomSeen && text != [] then
      (if text[0] == ByteOrderMark then text[1..] else text, DecoderState(carry, true))
    else
      (text, DecoderState(carry, st.bomSeen))
  }

  /** A leading U+FEFF, as bytes. */
  predicate StartsWithBom(s: seq<Byte>) {
    |s| >= 3 && s[0] == 0xEF && s[1] == 0xBB && s[2] == 0xBF
  }

  function StripBom(s: seq<Byte>): (r: seq<Byte>)
    ensures StartsWithBom(s) ==> s == [0xEF, 0xBB, 0xBF] + r
    ensures !StartsWithBom(s) ==> r == s
  {
    if StartsWithBom(s) then s[3..] else s
  }

  // ---------------------------------------------------------------------
  // Round trips

  /** Re-encoding the scalar of a well-formed sequence gives the sequence. */
  lemma EncodeScalarOf(s: seq<Byte>)
    requires IsSequence(s)
    ensures EncodeScalar(ScalarOf(s)) == s
  {
    if |s| == 2 {
      DigitSplit(s[0] as int - 0xC0, Payload(s[1]));
    } else if |s| == 3 {
      ThreeBytesBack(s);
    } else if |s| == 4 {
      FourBytesBack(s);
    }
  }

  lemma ThreeBytesBack(s: seq<Byte>)
    requires IsSequence(s) && |s| == 3
    ensures ThreeByteForm(ScalarOf(s)) == s
  {
    var q1 := (s[0] as int - 0xE0) * 0x40 + Payload(s[1]);
    DigitSplit(q1, Payload(s[2]));
    DigitSplit(s[0] as int - 0xE0, Payload(s[1]));
  }

  lemma FourBytesBack(s: seq<Byte>)
    requires IsSequence(s) && |s| == 4
    ensures FourByteForm(ScalarOf(s)) == s
  {
    var q2 := (s[0] as int - 0xF0) * 0x40 + Payload(s[1]);
    var q1 := q2 * 0x40 + Payload(s[2]);
    DigitSplit(q1, Payload(s[3]));
    DigitSplit(q2, Payload(s[2]));
    DigitSplit(s[0] as int - 0xF0, Payload(s[1]));
  }

  /** A complete well-formed sequence at the front is matched in full. */
  lemma MatchSequence(buf: seq<Byte>)
    requires 0 < |buf| && 0 < SequenceLength(buf[0]) <= |buf|
    requires IsSequence(buf[..SequenceLength(buf[0])])
    ensures MatchLength(buf, SequenceLength(buf[0]), 1) == SequenceLength(buf[0])
  {
    var n := SequenceLength(buf[0]);
    var m := MatchLength(buf, n, 1);
  }

  /** Encoding produces well-formed bytes. */
  lemma {:induction false} EncodeWellFormed(text: seq<Scalar>)
    ensures IsWellFormed(Encode(text))
    decreases |text|
  {
    if text != [] {
      var e := EncodeScalar(text[0]);
      var b := Encode(text);
      EncodeWellFormed(text[1..]);
      assert b[..|e|] == e;
      assert b[|e|..] == Encode(text[1..]);
    }
  }

  /** Decoding what was encoded gives the text back, with nothing carried. */
  lemma {:induction false} DecodeEncode(text: seq<Scalar>)
    ensures DecodeBytes(Encode(text)) == (text, [])
    decreases |text|
  {
    if text != [] {
      var e := EncodeScalar(text[0]);
      var b := Encode(text);
      var n := |e|;
      assert b[..n] == e;
      assert b[n..] == Encode(text[1..]);
      assert b[0] == e[0] && SequenceLength(b[0]) == n;
      MatchSequence(b);
      DecodeEncode(text[1..]);
      assert [text[0]] + text[1..] == text;
    }
  }

  /** Encoding one scalar in front of a text puts its sequence in front. */
  lemma EncodeCons(x: Scalar, rest: seq<Scalar>)
    ensures Encode([x] + rest) == EncodeScalar(x) + Encode(rest)
  {
    assert ([x] + rest)[1..] == rest;
  }

  /** How the decoder proceeds when the input opens with a complete
      well-formed sequence. */
  lemma DecodeFront(buf: seq<Byte>)
    requires 0 < |buf| && 0 < SequenceLength(buf[0]) <= |buf|
    requires IsSequence(buf[..SequenceLength(buf[0])])
    ensures var n := SequenceLength(buf[0]);
            DecodeBytes(buf) == ([ScalarOf(buf[..n])] + DecodeBytes(buf[n..]).0, DecodeBytes(buf[n..]).1)
  {
    MatchSequence(buf);
  }

  /** An incomplete sequence is held back whole. */
  lemma DecodeIncomplete(buf: seq<Byte>)
    requires IsIncomplete(buf)
    ensures DecodeBytes(buf) == ([], buf)
  {
    assert MatchLength(buf, SequenceLength(buf[0]), 1) == |buf|;
  }

  /** On well-formed input (possibly cut inside its last character), the
      decoder loses nothing: the decoded text re-encodes to the input minus
      the carry, and the carry is empty when the input is complete. */
  lemma {:induction false} DecodeWellFormedPrefix(buf: seq<Byte>)
    requires IsWellFormedPrefix(buf)
    ensures Encode(DecodeBytes(buf).0) + DecodeBytes(buf).1 == buf
    ensures IsWellFormed(buf) ==> DecodeBytes(buf).1 == []
    decreases |buf|
  {
    if buf != [] {
      var n := SequenceLength(buf[0]);
      if IsIncomplete(buf) {
        DecodeIncomplete(buf);
      } else {
        DecodeFront(buf);
        DecodeWellFormedPrefix(buf[n..]);
        EncodeScalarOf(buf[..n]);
        var rest := DecodeBytes(buf[n..]);
        Reassemble(buf, n, ScalarOf(buf[..n]), rest.0, rest.1);
      }
    }
  }

  lemma Reassemble(buf: seq<Byte>, n: nat, x: Scalar, text: seq<Scalar>, carry: seq<Byte>)
    requires n <= |buf| && EncodeScalar(x) == buf[..n] && Encode(text) + carry == buf[n..]
    ensures Encode([x] + text) + carry == buf
  {
    EncodeCons(x, text);
    assert buf == buf[..n] + buf[n..];
  }

  // ---------------------------------------------------------------------
  // Prefixes of well-formed streams

  /** Every prefix of a well-formed prefix is one. */
  lemma {:induction false} PrefixClosed(x: seq<Byte>, y: seq<Byte>)
    requires IsWellFormedPrefix(x + y)
    ensures IsWellFormedPrefix(x)
    decreases |x|
  {
    if x != [] {
      var xy := x + y;
      assert xy[0] == x[0];
      var n := SequenceLength(x[0]);
      if IsIncomplete(xy) {
        assert forall j | 1 <= j < |x| :: xy[j] == x[j];
      } else if |x| >= n {
        assert xy[..n] == x[..n];
        assert xy[n..] == x[n..] + y;
        PrefixClosed(x[n..], y);
      } else {
        assert forall j | 1 <= j < |x| :: xy[..n][j] == x[j];
      }
    }
  }

  /** What follows a complete well-formed part of a well-formed prefix is
      itself a well-formed prefix. */
  lemma {:induction false} SkipWellFormed(a: seq<Byte>, z: seq<Byte>)
    requires IsWellFormed(a) && IsWellFormedPrefix(a + z)
    ensures IsWellFormedPrefix(z)
    decreases |a|
  {
    if a != [] {
      var az := a + z;
      var n := SequenceLength(a[0]);
      assert az[0] == a[0];
      assert az[..n] == a[..n];
      assert !IsIncomplete(az);
      assert az[n..] == a[n..] + z;
      SkipWellFormed(a[n..], z);
    } else {
      assert a + z == z;
    }
  }

  /** Well-formed bytes one after another are well-formed. */
  lemma {:induction false} ConcatWellFormed(a: seq<Byte>, b: seq<Byte>)
    requires IsWellFormed(a) && IsWellFormed(b)
    ensures IsWellFormed(a + b)
    decreases |a|
  {
    if a == [] {
      assert a + b == b;
    } else {
      var ab := a + b;
      var n := SequenceLength(a[0]);
      assert ab[0] == a[0];
      assert ab[..n] == a[..n];
      assert ab[n..] == a[n..] + b;
      ConcatWellFormed(a[n..], b);
    }
  }

  /** What follows a well-formed part of well-formed bytes is well-formed. */
  lemma {:induction false} WellFormedTail(a: seq<Byte>, z: seq<Byte>)
    requires IsWellFormed(a) && IsWellFormed(a + z)
    ensures IsWellFormed(z)
    decreases |a|
  {
    if a == [] {
      assert a + z == z;
    } else {
      var az := a + z;
      var n := SequenceLength(a[0]);
      assert az[0] == a[0];
      assert az[n..] == a[n..] + z;
      WellFormedTail(a[n..], z);
    }
  }

  /** An incomplete sequence is never well-formed: a carry left after
      well-formed input means the input was cut inside a character. */
  lemma CarryNotWellFormed(s: seq<Byte>)
    requires IsCarry(s) && IsWellFormed(s)
    ensures s == []
  {
  }

  /** Complete input is in particular a prefix of complete input. */
  lemma {:induction false} WellFormedIsPrefix(s: seq<Byte>)
    requires IsWellFormed(s)
    ensures IsWellFormedPrefix(s)
    decreases |s|
  {
    if s != [] {
      WellFormedIsPrefix(s[SequenceLength(s[0])..]);
    }
  }

  /** The sequence of one scalar starts with EF BB BF exactly when the
      scalar is U+FEFF, whatever follows it. */
  lemma ScalarBom(x: Scalar, rest: seq<Byte>)
    ensures StartsWithBom(EncodeScalar(x) + rest) <==> x == ByteOrderMark
  {
    var e := EncodeScalar(x);
    var b := e + rest;
    if StartsWithBom(b) {
      assert e[0] == b[0] == 0xEF;
      assert |e| == 3;
      assert e[1] == b[1] && e[2] == b[2];
      assert e == [0xEF, 0xBB, 0xBF];
    }
    if x == ByteOrderMark {
      EncodeScalarOf([0xEF, 0xBB, 0xBF]);
    }
  }

  /** Encoded text starts with the bytes EF BB BF exactly when its first
      scalar is U+FEFF, whatever follows. */
  lemma BomFirst(text: seq<Scalar>, z: seq<Byte>)
    requires text != []
    ensures StartsWithBom(Encode(text) + z) <==> text[0] == ByteOrderMark
  {
    AppendAssoc(EncodeScalar(text[0]), Encode(text[1..]), z);
    ScalarBom(text[0], Encode(text[1..]) + z);
  }

  lemma AppendAssoc<T>(a: seq<T>, b: seq<T>, c: seq<T>)
    ensures (a + b) + c == a + (b + c)
  {
  }
}
