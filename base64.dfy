/** The base64 encoding of section 4 of RFC 4648: the standard alphabet with '='
    padding. The server encodes audio with it (Python `base64.b64encode`) and the
    podcast page decodes it again (`atob`). Decoding is strict: the length must be a
    multiple of four, padding may only close the last quantum, and the bits that
    padding leaves over must be zero, so that every accepted text is the encoding of
    exactly one byte string. */
module Base64 {
  import opened Shared

  const Padding: char := '='

  /** The character of the alphabet (RFC 4648, Table 1) for a 6-bit value. */
  function Symbol(v: int): char
    requires 0 <= v < 64
  {
    if v < 26 then ('A' as int + v) as char
    else if v < 52 then ('a' as int + (v - 26)) as char
    else if v < 62 then ('0' as int + (v - 52)) as char
    else if v == 62 then '+'
    else '/'
  }

  predicate IsSymbol(c: char) {
    ('A' <= c <= 'Z') || ('a' <= c <= 'z') || ('0' <= c <= '9') || c == '+' || c == '/'
  }

  /** The 6-bit value of an alphabet character; Symbol undoes it. */
  function Value(c: char): (v: int)
    requires IsSymbol(c)
    ensures 0 <= v < 64 && Symbol(v) == c
  {
    if 'A' <= c <= 'Z' then c as int - 'A' as int
    else if 'a' <= c <= 'z' then c as int - 'a' as int + 26
    else if '0' <= c <= '9' then c as int - '0' as int + 52
    else if c == '+' then 62
    else 63
  }

  lemma ValueOfSymbol(v: int)
    requires 0 <= v < 64
    ensures IsSymbol(Symbol(v)) && Value(Symbol(v)) == v
  {
  }

  /** A full 24-bit group as four characters. */
  function EncodeTriple(b0: byte, b1: byte, b2: byte): string {
    [Symbol(b0 / 4), Symbol(b0 % 4 * 16 + b1 / 16), Symbol(b1 % 16 * 4 + b2 / 64), Symbol(b2 % 64)]
  }

  /** A final group of 16 bits: three characters and one '='. */
  function EncodePair(b0: byte, b1: byte): string {
    [Symbol(b0 / 4), Symbol(b0 % 4 * 16 + b1 / 16), Symbol(b1 % 16 * 4), Padding]
  }

  /** A final group of 8 bits: two characters and two '='. */
  function EncodeSingle(b0: byte): string {
    [Symbol(b0 / 4), Symbol(b0 % 4 * 16), Padding, Padding]
  }

  /** `b64encode`: every character is in the alphabet or is the padding. */
  function Encode(b: seq<byte>): (s: string)
    ensures forall k :: 0 <= k < |s| ==> IsSymbol(s[k]) || s[k] == Padding
    decreases |b|
  {
    if |b| == 0 then []
    else if |b| == 1 then EncodeSingle(b[0])
    else if |b| == 2 then EncodePair(b[0], b[1])
    else EncodeTriple(b[0], b[1], b[2]) + Encode(b[3..])
  }

  /** Decodes one quantum of four characters. Only the last quantum of a text
      (`final`) may be padded. */
  function DecodeQuantum(q: string, final: bool): Option<seq<byte>>
    requires |q| == 4
  {
    if !(IsSymbol(q[0]) && IsSymbol(q[1])) then None
    else
      var c0, c1 := Value(q[0]), Value(q[1]);
      if IsSymbol(q[2]) && IsSymbol(q[3]) then
        var c2, c3 := Value(q[2]), Value(q[3]);
        Some([c0 * 4 + c1 / 16, c1 % 16 * 16 + c2 / 4, c2 % 4 * 64 + c3])
      else if final && IsSymbol(q[2]) && q[3] == Padding && Value(q[2]) % 4 == 0 then
        var c2 := Value(q[2]);
        Some([c0 * 4 + c1 / 16, c1 % 16 * 16 + c2 / 4])
      else if final && q[2] == Padding && q[3] == Padding && c1 % 16 == 0 then
        Some([c0 * 4 + c1 / 16])
      else None
  }

  /** Strict decoding; None is the failure `atob` reports by throwing. An accepted
      text has a length that is a multiple of four and only alphabet and padding
      characters. */
  function Decode(s: string): (b: Option<seq<byte>>)
    ensures b.Some? ==> |s| % 4 == 0
    ensures b.Some? ==> forall k :: 0 <= k < |s| ==> IsSymbol(s[k]) || s[k] == Padding
    decreases |s|
  {
    if |s| == 0 then Some([])
    else if |s| < 4 then None
    else
      match DecodeQuantum(s[..4], |s| == 4)
      case None => None
      case Some(head) =>
        match Decode(s[4..])
        case None => None
        case Some(tail) => Some(head + tail)
  }

  /** Every 3 input bytes give 4 characters, and a partial group is padded to 4. */
  lemma {:induction false} EncodeLength(b: seq<byte>)
    ensures |Encode(b)| == 4 * ((|b| + 2) / 3)
    decreases |b|
  {
    if |b| >= 3 {
      EncodeLength(b[3..]);
      assert |Encode(b)| == 4 + |Encode(b[3..])|;
      assert (|b| + 2) / 3 == (|b| - 3 + 2) / 3 + 1;
    }
  }

  /** Splitting a value into a high part and a low part below a power of two. */
  lemma Digits(hi: int, lo: int, k: int)
    requires k == 4 || k == 16 || k == 64
    requires 0 <= hi && 0 <= lo < k
    ensures (hi * k + lo) / k == hi && (hi * k + lo) % k == lo
  {
  }

  lemma TripleRoundTrip(b0: byte, b1: byte, b2: byte, final: bool)
    ensures DecodeQuantum(EncodeTriple(b0, b1, b2), final) == Some([b0, b1, b2])
  {
    var c0, c1, c2, c3 := b0 / 4, b0 % 4 * 16 + b1 / 16, b1 % 16 * 4 + b2 / 64, b2 % 64;
    var q := EncodeTriple(b0, b1, b2);
    ValueOfSymbol(c0);
    ValueOfSymbol(c1);
    ValueOfSymbol(c2);
    ValueOfSymbol(c3);
    Digits(b0 % 4, b1 / 16, 16);
    Digits(b1 % 16, b2 / 64, 4);
    assert Value(q[0]) == c0 && Value(q[1]) == c1 && Value(q[2]) == c2 && Value(q[3]) == c3;
    assert c0 * 4 + c1 / 16 == b0;
    assert c1 % 16 * 16 + c2 / 4 == b1;
    assert c2 % 4 * 64 + c3 == b2;
  }

  lemma PairRoundTrip(b0: byte, b1: byte)
    ensures Decode(EncodePair(b0, b1)) == Some([b0, b1])
  {
    var c0, c1, c2 := b0 / 4, b0 % 4 * 16 + b1 / 16, b1 % 16 * 4;
    var q := EncodePair(b0, b1);
    ValueOfSymbol(c0);
    ValueOfSymbol(c1);
    ValueOfSymbol(c2);
    Digits(b0 % 4, b1 / 16, 16);
    Digits(b1 % 16, 0, 4);
    assert Value(q[0]) == c0 && Value(q[1]) == c1 && Value(q[2]) == c2;
    assert c0 * 4 + c1 / 16 == b0;
    assert c1 % 16 * 16 + c2 / 4 == b1;
    assert q[..4] == q && q[4..] == [];
    assert DecodeQuantum(q[..4], true) == Some([b0, b1]);
    assert Decode(q[4..]) == Some([]);
    assert [b0, b1] + [] == [b0, b1];
  }

  lemma SingleRoundTrip(b0: byte)
    ensures Decode(EncodeSingle(b0)) == Some([b0])
  {
    var c0, c1 := b0 / 4, b0 % 4 * 16;
    var q := EncodeSingle(b0);
    ValueOfSymbol(c0);
    ValueOfSymbol(c1);
    Digits(b0 % 4, 0, 16);
    assert Value(q[0]) == c0 && Value(q[1]) == c1;
    assert c0 * 4 + c1 / 16 == b0;
    assert q[..4] == q && q[4..] == [];
    assert DecodeQuantum(q[..4], true) == Some([b0]);
    assert Decode(q[4..]) == Some([]);
    assert [b0] + [] == [b0];
  }

  /** Decoding a text proceeds quantum by quantum. */
  lemma DecodeFirstQuantum(q: string, rest: string)
    requires |q| == 4 && DecodeQuantum(q, rest == []).Some? && Decode(rest).Some?
    ensures Decode(q + rest) == Some(DecodeQuantum(q, rest == []).value + Decode(rest).value)
  {
    var s := q + rest;
    assert s[..4] == q && s[4..] == rest;
  }

  /** What the server encodes, the page decodes back to the same bytes. */
  lemma {:induction false} DecodeOfEncode(b: seq<byte>)
    ensures Decode(Encode(b)) == Some(b)
    decreases |b|
  {
    if |b| == 1 {
      SingleRoundTrip(b[0]);
      assert b == [b[0]];
    } else if |b| == 2 {
      PairRoundTrip(b[0], b[1]);
      assert b == [b[0], b[1]];
    } else if |b| >= 3 {
      DecodeOfEncode(b[3..]);
      DecodeOfEncodeStep(b);
    }
  }

  /** One full group in front of a text that round-trips still round-trips. */
  lemma DecodeOfEncodeStep(b: seq<byte>)
    requires |b| >= 3 && Decode(Encode(b[3..])) == Some(b[3..])
    ensures Decode(Encode(b)) == Some(b)
  {
    EncodeFirstGroup(b);
    DecodeFirstGroup(b);
    FirstGroup(b);
  }

  lemma FirstGroup(b: seq<byte>)
    requires |b| >= 3
    ensures [b[0], b[1], b[2]] + b[3..] == b
  {
  }

  lemma EncodeFirstGroup(b: seq<byte>)
    requires |b| >= 3
    ensures Encode(b) == EncodeTriple(b[0], b[1], b[2]) + Encode(b[3..])
  {
  }

  lemma DecodeFirstGroup(b: seq<byte>)
    requires |b| >= 3 && Decode(Encode(b[3..])) == Some(b[3..])
    ensures Decode(EncodeTriple(b[0], b[1], b[2]) + Encode(b[3..])) == Some([b[0], b[1], b[2]] + b[3..])
  {
    var q, rest := EncodeTriple(b[0], b[1], b[2]), Encode(b[3..]);
    EncodeLength(b[3..]);
    TripleRoundTrip(b[0], b[1], b[2], rest == []);
    DecodeFirstQuantum(q, rest);
  }

  /** A decodable quantum is the encoding of the bytes it decodes to; only a
      final quantum may carry fewer than three bytes. */
  lemma QuantumCanonical(q: string, final: bool)
    requires |q| == 4 && DecodeQuantum(q, final).Some?
    ensures 1 <= |DecodeQuantum(q, final).value| <= 3
    ensures !final ==> |DecodeQuantum(q, final).value| == 3
    ensures Encode(DecodeQuantum(q, final).value) == q
  {
    if IsSymbol(q[2]) && IsSymbol(q[3]) {
      FullQuantumCanonical(q, final);
    } else if final && IsSymbol(q[2]) && q[3] == Padding && Value(q[2]) % 4 == 0 {
      PairQuantumCanonical(q);
    } else {
      SingleQuantumCanonical(q);
    }
  }

  lemma FullQuantumCanonical(q: string, final: bool)
    requires |q| == 4 && IsSymbol(q[0]) && IsSymbol(q[1]) && IsSymbol(q[2]) && IsSymbol(q[3])
    ensures DecodeQuantum(q, final).Some? && |DecodeQuantum(q, final).value| == 3
    ensures Encode(DecodeQuantum(q, final).value) == q
  {
    var c0, c1, c2, c3 := Value(q[0]), Value(q[1]), Value(q[2]), Value(q[3]);
    var bs := [c0 * 4 + c1 / 16, c1 % 16 * 16 + c2 / 4, c2 % 4 * 64 + c3];
    DecodeFullQuantum(q, final);
    assert DecodeQuantum(q, final).value == bs;
    EncodeOfDigits(c0, c1, c2, c3);
    SymbolsOfQuantum(q);
    assert Encode(bs) == q;
  }

  /** Re-encoding the three bytes that four 6-bit values spell gives those values back. */
  lemma EncodeOfDigits(c0: int, c1: int, c2: int, c3: int)
    requires 0 <= c0 < 64 && 0 <= c1 < 64 && 0 <= c2 < 64 && 0 <= c3 < 64
    ensures Encode([c0 * 4 + c1 / 16, c1 % 16 * 16 + c2 / 4, c2 % 4 * 64 + c3])
      == [Symbol(c0), Symbol(c1), Symbol(c2), Symbol(c3)]
  {
    TripleDigits(c0, c1, c2, c3);
    EncodeOfGroup(c0 * 4 + c1 / 16, c1 % 16 * 16 + c2 / 4, c2 % 4 * 64 + c3);
  }

  lemma DecodeFullQuantum(q: string, final: bool)
    requires |q| == 4 && IsSymbol(q[0]) && IsSymbol(q[1]) && IsSymbol(q[2]) && IsSymbol(q[3])
    ensures var c0, c1, c2, c3 := Value(q[0]), Value(q[1]), Value(q[2]), Value(q[3]);
      DecodeQuantum(q, final) == Some([c0 * 4 + c1 / 16, c1 % 16 * 16 + c2 / 4, c2 % 4 * 64 + c3])
  {
  }

  lemma SymbolsOfQuantum(q: string)
    requires |q| == 4 && IsSymbol(q[0]) && IsSymbol(q[1]) && IsSymbol(q[2]) && IsSymbol(q[3])
    ensures q == [Symbol(Value(q[0])), Symbol(Value(q[1])), Symbol(Value(q[2])), Symbol(Value(q[3]))]
  {
  }

  lemma EncodeOfGroup(b0: byte, b1: byte, b2: byte)
    ensures Encode([b0, b1, b2]) == EncodeTriple(b0, b1, b2)
  {
    var b := [b0, b1, b2];
    assert b[3..] == [];
    assert EncodeTriple(b0, b1, b2) + [] == EncodeTriple(b0, b1, b2);
  }

  lemma TripleDigits(c0: int, c1: int, c2: int, c3: int)
    requires 0 <= c0 < 64 && 0 <= c1 < 64 && 0 <= c2 < 64 && 0 <= c3 < 64
    ensures var b0, b1, b2 := c0 * 4 + c1 / 16, c1 % 16 * 16 + c2 / 4, c2 % 4 * 64 + c3;
      0 <= b0 < 256 && 0 <= b1 < 256 && 0 <= b2 < 256
      && EncodeTriple(b0, b1, b2) == [Symbol(c0), Symbol(c1), Symbol(c2), Symbol(c3)]
  {
    var b0, b1, b2 := c0 * 4 + c1 / 16, c1 % 16 * 16 + c2 / 4, c2 % 4 * 64 + c3;
    Digits(c0, c1 / 16, 4);
    Digits(c1 % 16, c2 / 4, 16);
    Digits(c2 % 4, c3, 64);
    assert b0 % 4 * 16 + b1 / 16 == c1;
    assert b1 % 16 * 4 + b2 / 64 == c2;
  }

  lemma PairQuantumCanonical(q: string)
    requires |q| == 4 && IsSymbol(q[0]) && IsSymbol(q[1]) && IsSymbol(q[2]) && q[3] == Padding
    requires Value(q[2]) % 4 == 0
    ensures DecodeQuantum(q, true).Some? && |DecodeQuantum(q, true).value| == 2
    ensures Encode(DecodeQuantum(q, true).value) == q
  {
    var c0, c1, c2 := Value(q[0]), Value(q[1]), Value(q[2]);
    var bs := DecodeQuantum(q, true).value;
    var b0, b1 := c0 * 4 + c1 / 16, c1 % 16 * 16 + c2 / 4;
    assert bs == [b0, b1];
    Digits(c0, c1 / 16, 4);
    Digits(c1 % 16, c2 / 4, 16);
    assert b0 % 4 * 16 + b1 / 16 == c1;
    assert b1 % 16 * 4 == c2;
    assert EncodePair(b0, b1) == [Symbol(c0), Symbol(c1), Symbol(c2), Padding];
  }

  lemma SingleQuantumCanonical(q: string)
    requires |q| == 4 && IsSymbol(q[0]) && IsSymbol(q[1]) && q[2] == Padding && q[3] == Padding
    requires Value(q[1]) % 16 == 0
    ensures DecodeQuantum(q, true).Some? && |DecodeQuantum(q, true).value| == 1
    ensures Encode(DecodeQuantum(q, true).value) == q
  {
    var c0, c1 := Value(q[0]), Value(q[1]);
    var bs := DecodeQuantum(q, true).value;
    var b0 := c0 * 4 + c1 / 16;
    assert bs == [b0];
    Digits(c0, c1 / 16, 4);
    assert b0 % 4 * 16 == c1;
    assert EncodeSingle(b0) == [Symbol(c0), Symbol(c1), Padding, Padding];
  }

  /** Every text the page accepts is the server's encoding of what it decodes to. */
  lemma {:induction false} EncodeOfDecode(s: string)
    requires Decode(s).Some?
    ensures Encode(Decode(s).value) == s
    decreases |s|
  {
    if |s| > 0 {
      var head := DecodeQuantum(s[..4], |s| == 4).value;
      var tail := Decode(s[4..]).value;
      EncodeOfDecode(s[4..]);
      QuantumCanonical(s[..4], |s| == 4);
      if |s| == 4 {
        assert s[4..] == [];
        assert head + tail == head;
      } else {
        EncodeAfterTriple(head, tail);
      }
      assert s == s[..4] + s[4..];
    }
  }

  /** A full group followed by more bytes encodes group by group. */
  lemma EncodeAfterTriple(head: seq<byte>, tail: seq<byte>)
    requires |head| == 3
    ensures Encode(head + tail) == Encode(head) + Encode(tail)
  {
    var b := head + tail;
    assert b[..3] == head && b[3..] == tail;
    assert Encode(b) == EncodeTriple(b[0], b[1], b[2]) + Encode(tail);
    assert Encode(head) == EncodeTriple(b[0], b[1], b[2]) + Encode(head[3..]);
    assert head[3..] == [];
  }

  /** Decoding and encoding are inverse: a text decodes to b exactly when it is the encoding of b. */
  lemma DecodeIffEncode(s: string, b: seq<byte>)
    ensures Decode(s) == Some(b) <==> Encode(b) == s
  {
    if Decode(s) == Some(b) {
      EncodeOfDecode(s);
    }
    if Encode(b) == s {
      DecodeOfEncode(b);
    }
  }
}
