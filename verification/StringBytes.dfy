/** The byte form in which strings enter the data segment, one to three bytes per UTF-16 code unit. */
module StringBytes {
  import opened Prelude

  type byte = b: int | 0 <= b < 0x100

  function EncodeUnit(c: CodeUnit): (r: seq<byte>)
    ensures 1 <= |r| <= 3
  {
    if c <= 0x7f then [c]
    else if c <= 0x7ff then [0xc0 + c / 0x40 % 0x20, 0x80 + c % 0x40]
    else [0xe0 + c / 0x1000 % 0x10, 0x80 + c / 0x40 % 0x40, 0x80 + c % 0x40]
  }

  function Encode(s: JsString): seq<byte> {
    if s == [] then [] else EncodeUnit(s[0]) + Encode(s[1..])
  }

  /** How many bytes the unit takes whose first byte is `b`. */
  function UnitLength(b: byte): nat {
    if b < 0x80 then 1 else if b < 0xe0 then 2 else 3
  }

  function DecodeUnit(b: seq<byte>): int
    requires b != [] && |b| == UnitLength(b[0])
  {
    var at := (i: int) requires 0 <= i < |b| => b[i] as int;
    if |b| == 1 then at(0)
    else if |b| == 2 then (at(0) - 0xc0) * 0x40 + (at(1) - 0x80)
    else (at(0) - 0xe0) * 0x1000 + (at(1) - 0x80) * 0x40 + (at(2) - 0x80)
  }

  function Decode(b: seq<byte>): Option<seq<int>> {
    if b == [] then Some([])
    else
      var n := UnitLength(b[0]);
      if n > |b| then None
      else match Decode(b[n..])
        case None => None
        case Some(rest) => Some([DecodeUnit(b[..n])] + rest)
  }

  /** A code unit in groups of four, six and six bits. */
  lemma SixBitGroups(c: CodeUnit)
    ensures c == c / 0x1000 * 0x1000 + c / 0x40 % 0x40 * 0x40 + c % 0x40 && c / 0x1000 < 0x10
    ensures c < 0x800 ==> c == c / 0x40 * 0x40 + c % 0x40 && c / 0x40 < 0x20
  {
    var d := c / 0x40;
    assert c == d * 0x40 + c % 0x40 && d == d / 0x40 * 0x40 + d % 0x40 && d / 0x40 == c / 0x1000;
  }

  lemma UnitRoundTrip(c: CodeUnit)
    ensures var r := EncodeUnit(c); UnitLength(r[0]) == |r| && DecodeUnit(r) == c
  {
    SixBitGroups(c);
  }

  predicate Continues(b: byte) { 0x80 <= b < 0xc0 }

  /**
   The byte sequences of table 3-7 of the Unicode Standard of up to three bytes, with those of
   surrogates: a lead byte, as many continuation bytes as it asks for, and no shorter form.
   */
  predicate ShortestForm(b: seq<byte>) {
    || (|b| == 1 && b[0] < 0x80)
    || (|b| == 2 && 0xc2 <= b[0] < 0xe0 && Continues(b[1]))
    || (|b| == 3 && 0xe0 <= b[0] < 0xf0 && Continues(b[1]) && Continues(b[2]) && (b[0] == 0xe0 ==> 0xa0 <= b[1]))
  }

  /** The bytes of a unit are the one sequence in shortest form that stands for it. */
  lemma UnitIsShortest(c: CodeUnit, b: seq<byte>)
    ensures b == EncodeUnit(c) <==> ShortestForm(b) && UnitLength(b[0]) == |b| && DecodeUnit(b) == c
  {
    UnitRoundTrip(c);
    UnitInRange(c);
    if ShortestForm(b) && UnitLength(b[0]) == |b| && DecodeUnit(b) == c {
      FormDecides(b, EncodeUnit(c));
    }
  }

  /** The length of a unit depends on its value alone, and so do the ranges of its bytes. */
  lemma UnitInRange(c: CodeUnit)
    ensures ShortestForm(EncodeUnit(c)) && |EncodeUnit(c)| == if c < 0x80 then 1 else if c < 0x800 then 2 else 3
  {
  }

  /** Two sequences in shortest form that stand for one value are the same. */
  lemma FormDecides(b: seq<byte>, d: seq<byte>)
    requires ShortestForm(b) && ShortestForm(d) && UnitLength(b[0]) == |b| && UnitLength(d[0]) == |d|
    requires DecodeUnit(b) == DecodeUnit(d)
    ensures b == d
  {
  }

  /** What the stored bytes of a string are: a sequence of shortest forms, one for each unit. */
  ghost predicate Stored(s: JsString, b: seq<byte>)
    decreases |s|
  {
    if s == [] then b == []
    else b != [] && UnitLength(b[0]) <= |b| && ShortestForm(b[..UnitLength(b[0])]) && DecodeUnit(b[..UnitLength(b[0])]) == s[0]
         && Stored(s[1..], b[UnitLength(b[0])..])
  }

  lemma {:induction false} EncodeIsStored(s: JsString, b: seq<byte>)
    ensures b == Encode(s) <==> Stored(s, b)
  {
    if s != [] {
      var unit := EncodeUnit(s[0]);
      UnitIsShortest(s[0], unit);
      if b != [] && UnitLength(b[0]) <= |b| {
        var n := UnitLength(b[0]);
        assert b[..n] + b[n..] == b;
        UnitIsShortest(s[0], b[..n]);
        EncodeIsStored(s[1..], b[n..]);
      }
      if b == Encode(s) {
        assert b[0] == unit[0] && b[..|unit|] == unit && b[|unit|..] == Encode(s[1..]);
      }
    }
  }

  /** The encoding can be undone, so different strings have different bytes. */
  lemma {:induction false} EncodeRoundTrip(s: JsString)
    ensures Decode(Encode(s)) == Some(s)
  {
    if s != [] {
      var unit, b := EncodeUnit(s[0]), Encode(s);
      UnitRoundTrip(s[0]);
      EncodeRoundTrip(s[1..]);
      assert b[0] == unit[0] && b[..|unit|] == unit && b[|unit|..] == Encode(s[1..]);
      assert s == [s[0]] + s[1..];
    }
  }

  /** A NUL byte only comes from a NUL character, so other strings can be read back up to the first NUL. */
  lemma {:induction false} NulOnlyFromNul(s: JsString)
    ensures 0 in Encode(s) <==> 0 in s
  {
    if s != [] {
      NulOnlyFromNul(s[1..]);
      assert 0 in EncodeUnit(s[0]) <==> s[0] == 0;
      assert s == [s[0]] + s[1..];
    }
  }

  lemma {:induction false} EncodeSnoc(s: JsString, c: CodeUnit)
    ensures Encode(s + [c]) == Encode(s) + EncodeUnit(c)
  {
    if s == [] {
      assert (s + [c])[1..] == [];
    } else {
      assert (s + [c])[1..] == s[1..] + [c];
      EncodeSnoc(s[1..], c);
    }
  }

  method Utf16ToUtf8(s: JsString) returns (r: seq<byte>)
    ensures r == Encode(s) && Stored(s, r)
  {
    r := [];
    var i := 0;
    while i < |s|
      invariant i <= |s| && r == Encode(s[..i])
    {
      var c := s[i];
      ghost var before := r;
      assert s[..i + 1] == s[..i] + [c];
      EncodeSnoc(s[..i], c);
      if c <= 0x7f {
        r := r + [c];
      } else if c <= 0x7ff {
        r := r + [0xc0 + c / 0x40 % 0x20];
        r := r + [0x80 + c % 0x40];
      } else {
        r := r + [0xe0 + c / 0x1000 % 0x10];
        r := r + [0x80 + c / 0x40 % 0x40];
        r := r + [0x80 + c % 0x40];
      }
      assert r == before + EncodeUnit(c);
      i := i + 1;
    }
    assert s[..|s|] == s;
    EncodeIsStored(s, r);
  }
}
