/** Decoding the escape sequences of a string literal's source text, quotes included. */
module Escapes {
  import opened Prelude

  const DOUBLE_QUOTE: CodeUnit := 0x22
  const SINGLE_QUOTE: CodeUnit := 0x27
  const BACKSLASH: CodeUnit := 0x5c
  const LETTER_X: CodeUnit := 0x78

  /** Quotes and the backslash stand for themselves. */
  predicate IsSelfEscape(c: CodeUnit) {
    c == DOUBLE_QUOTE || c == SINGLE_QUOTE || c == BACKSLASH
  }

  /** The letters n, r, t, b and f, in the order of the control characters they stand for. */
  const CONTROL_LETTERS: JsString := [0x6e, 0x72, 0x74, 0x62, 0x66]
  const CONTROLS: JsString := [0x0a, 0x0d, 0x09, 0x08, 0x0c]

  /** The position of a letter in `CONTROL_LETTERS`, or -1. */
  function ControlIndex(c: CodeUnit): (r: int)
    ensures -1 <= r < 5
    ensures r >= 0 ==> CONTROL_LETTERS[r] == c
    ensures r == -1 ==> c !in CONTROL_LETTERS
  {
    if c == 0x6e then 0 else if c == 0x72 then 1 else if c == 0x74 then 2
    else if c == 0x62 then 3 else if c == 0x66 then 4 else -1
  }

  // ----- hexadecimal digits -----

  /** What a character sets the current digit to; `was` when it sets nothing, none for NaN. */
  function DigitStep(c: CodeUnit, was: Option<int>): Option<int> {
    if 65 <= c <= 70 then Some(10 + c - 65)
    else if 97 <= c <= 102 then Some(10 + c - 97)
    else if 48 <= c <= 57 then Some(c - 48)
    else if 58 <= c <= 59 then None
    else was
  }

  /** The accumulated number; NaN is absorbing. */
  function Accumulate(value: JsString, base: int, decimal: Option<int>, num: Option<int>): Option<int> {
    if value == [] then decimal
    else
      var digit := DigitStep(value[0], num);
      var next := if decimal.Some? && digit.Some? then Some(decimal.value * base + digit.value) else None;
      Accumulate(value[1..], base, next, digit)
  }

  /** The characters ':' and ';' pass for digits but parse as NaN; any other non-digit repeats the last digit. */
  method DecimalizationInternal(value: JsString, base: int) returns (decimal: Option<int>)
    ensures decimal == Accumulate(value, base, Some(0), Some(0))
  {
    decimal := Some(0);
    var num := Some(0);
    var i := 0;
    while i < |value|
      invariant i <= |value|
      invariant Accumulate(value[i..], base, decimal, num) == Accumulate(value, base, Some(0), Some(0))
    {
      var code := value[i];
      if code >= 65 && code <= 70 {
        num := Some(10 + code - 65);
      } else if code >= 97 && code <= 102 {
        num := Some(10 + code - 97);
      } else if code >= 48 && code <= 59 {
        num := if code <= 57 then Some(code - 48) else None;
      }
      decimal := if decimal.Some? && num.Some? then Some(decimal.value * base + num.value) else None;
      assert value[i..][1..] == value[i + 1..];
      i := i + 1;
    }
  }

  /** `String.fromCharCode`, which takes NaN for 0. */
  function FromCharCode(n: Option<int>): CodeUnit {
    if n.Some? then n.value % 0x1_0000 else 0
  }

  /** `String.prototype.substring` for ascending bounds. */
  function Substring(s: JsString, from: nat, to: nat): JsString
    requires from <= to
  {
    var f := if from < |s| then from else |s|;
    var t := if to < |s| then to else |s|;
    s[f..t]
  }

  function HexValue(s: JsString, i: nat): CodeUnit {
    FromCharCode(Accumulate(Substring(s, i + 2, i + 4), 16, Some(0), Some(0)))
  }

  // ----- decoding -----

  /** What the escape at `i` decodes to; an unknown escape is dropped. */
  function EscapeAt(s: JsString, i: nat): JsString
    requires i + 1 < |s|
  {
    var c := s[i + 1];
    if IsSelfEscape(c) then [c]
    else if ControlIndex(c) >= 0 then [CONTROLS[ControlIndex(c)]]
    else if c == LETTER_X then [HexValue(s, i)]
    else []
  }

  predicate StartsEscape(s: JsString, i: nat)
    requires i < |s|
  {
    s[i] == BACKSLASH && i < |s| - 1
  }

  /** What the character or escape at `i` adds to the result. */
  function Emitted(s: JsString, i: nat): JsString
    requires i < |s|
  {
    if StartsEscape(s, i) then EscapeAt(s, i)
    else if IsSelfEscape(s[i]) && (i == 0 || i == |s| - 1) then []
    else [s[i]]
  }

  /** How far it reaches. */
  function Stride(s: JsString, i: nat): (n: nat)
    requires i < |s|
    ensures n > 0
  {
    if StartsEscape(s, i) then if s[i + 1] == LETTER_X then 4 else 2 else 1
  }

  function Decoded(s: JsString, i: nat): JsString
    decreases |s| - i
  {
    if i >= |s| then [] else Emitted(s, i) + Decoded(s, i + Stride(s, i))
  }

  /** The branches for a backslash; `last` is the index of the last character used. */
  method DecodeEscape(str: JsString, i: nat) returns (piece: JsString, last: nat)
    requires i < |str| && StartsEscape(str, i)
    ensures piece == Emitted(str, i) && last + 1 == i + Stride(str, i)
  {
    piece, last := [], i;
    if IsSelfEscape(str[i + 1]) {
      piece := [str[i + 1]];
    } else if ControlIndex(str[i + 1]) >= 0 {
      piece := [CONTROLS[ControlIndex(str[i + 1])]];
    } else if str[i + 1] == LETTER_X {
      var code := DecimalizationInternal(Substring(str, i + 2, i + 4), 16);
      piece := [FromCharCode(code)];
      last := last + 2;
    }
    last := last + 1;
  }

  lemma DecodedFrom(s: JsString, i: nat, before: JsString)
    requires i < |s|
    ensures before + Decoded(s, i) == (before + Emitted(s, i)) + Decoded(s, i + Stride(s, i))
  {
  }

  method ProcessEscape(str: JsString) returns (newStr: JsString)
    ensures newStr == Decoded(str, 0)
  {
    newStr := [];
    var i := 0;
    ghost var target := Decoded(str, 0);
    while i < |str|
      invariant newStr + Decoded(str, i) == target
    {
      DecodedFrom(str, i, newStr);
      ghost var next := newStr + Emitted(str, i);
      if str[i] == BACKSLASH && i < |str| - 1 {
        var piece;
        piece, i := DecodeEscape(str, i);
        newStr := newStr + piece;
      } else if IsSelfEscape(str[i]) && (i == 0 || i == |str| - 1) {
      } else {
        newStr := newStr + [str[i]];
      }
      i := i + 1;
      assert newStr == next;
    }
  }

  // ----- literals -----

  predicate IsHexDigit(c: CodeUnit) {
    48 <= c <= 57 || 65 <= c <= 70 || 97 <= c <= 102
  }

  function DigitValue(c: CodeUnit): (r: int)
    requires IsHexDigit(c)
    ensures 0 <= r < 16
  {
    if c <= 57 then c - 48 else if c <= 70 then c - 55 else c - 87
  }

  /** The pieces of a literal's body (section 12.9.4 of ECMA-262 2023); `Plain` escapes a character without special meaning. */
  datatype Token =
    | Raw(c: CodeUnit)
    | Self(c: CodeUnit)
    | Control(k: nat)
    | Hex(high: CodeUnit, low: CodeUnit)
    | Plain(c: CodeUnit)

  predicate WellFormed(t: Token) {
    match t
    case Raw(c) => c != BACKSLASH
    case Self(c) => IsSelfEscape(c)
    case Control(k) => k < 5
    case Hex(high, low) => IsHexDigit(high) && IsHexDigit(low)
    case Plain(c) => !IsSelfEscape(c) && c !in CONTROL_LETTERS && c != LETTER_X
  }

  /** The characters a token is written with. */
  function Written(t: Token): JsString
    requires WellFormed(t)
  {
    match t
    case Raw(c) => [c]
    case Self(c) => [BACKSLASH, c]
    case Control(k) => [BACKSLASH, CONTROL_LETTERS[k]]
    case Hex(high, low) => [BACKSLASH, LETTER_X, high, low]
    case Plain(c) => [BACKSLASH, c]
  }

  /** What a token is decoded to. */
  function Meaning(t: Token): JsString
    requires WellFormed(t)
  {
    match t
    case Raw(c) => [c]
    case Self(c) => [c]
    case Control(k) => [CONTROLS[k]]
    case Hex(high, low) => [16 * DigitValue(high) + DigitValue(low)]
    case Plain(_) => []
  }

  ghost predicate AllWellFormed(ts: seq<Token>) {
    forall t :: t in ts ==> WellFormed(t)
  }

  ghost function AllWritten(ts: seq<Token>): JsString
    requires AllWellFormed(ts)
  {
    if ts == [] then [] else Written(ts[0]) + AllWritten(ts[1..])
  }

  ghost function AllMeanings(ts: seq<Token>): JsString
    requires AllWellFormed(ts)
  {
    if ts == [] then [] else Meaning(ts[0]) + AllMeanings(ts[1..])
  }

  /** A literal: the tokens between two quotes. */
  ghost function Literal(open: CodeUnit, ts: seq<Token>, close: CodeUnit): JsString
    requires AllWellFormed(ts)
  {
    [open] + AllWritten(ts) + [close]
  }

  lemma DigitIsValue(c: CodeUnit, was: Option<int>)
    requires IsHexDigit(c)
    ensures DigitStep(c, was) == Some(DigitValue(c))
  {
  }

  lemma TwoDigits(value: JsString)
    requires |value| == 2 && IsHexDigit(value[0]) && IsHexDigit(value[1])
    ensures Accumulate(value, 16, Some(0), Some(0)) == Some(16 * DigitValue(value[0]) + DigitValue(value[1]))
  {
    var high, low := DigitValue(value[0]), DigitValue(value[1]);
    DigitIsValue(value[0], Some(0));
    DigitIsValue(value[1], Some(high));
    assert value[1..][0] == value[1] && value[1..][1..] == [];
    assert Accumulate(value[1..][1..], 16, Some(high * 16 + low), Some(low)) == Some(high * 16 + low);
    assert Accumulate(value[1..], 16, Some(high), Some(high)) == Some(high * 16 + low);
  }

  lemma HexPairIsPositional(s: JsString, i: nat)
    requires i + 3 < |s| && IsHexDigit(s[i + 2]) && IsHexDigit(s[i + 3])
    ensures HexValue(s, i) == 16 * DigitValue(s[i + 2]) + DigitValue(s[i + 3])
  {
    var value := Substring(s, i + 2, i + 4);
    assert value[0] == s[i + 2] && value[1] == s[i + 3];
    TwoDigits(value);
  }

  lemma EmitsHexPair(s: JsString, i: nat, t: Token)
    requires t.Hex? && WellFormed(t) && i + 4 < |s| && s[i] == BACKSLASH && s[i + 1] == LETTER_X
    requires s[i + 2] == t.high && s[i + 3] == t.low
    ensures Emitted(s, i) == Meaning(t) && Stride(s, i) == 4
  {
    HexPairIsPositional(s, i);
  }

  lemma EmitsToken(s: JsString, i: nat, t: Token)
    requires WellFormed(t) && 0 < i && i + |Written(t)| < |s|
    requires forall k :: 0 <= k < |Written(t)| ==> s[i + k] == Written(t)[k]
    ensures Emitted(s, i) == Meaning(t) && Stride(s, i) == |Written(t)|
  {
    assert s[i + 0] == Written(t)[0];
    if !t.Raw? {
      assert s[i + 1] == Written(t)[1];
    }
    if t.Hex? {
      assert s[i + 2] == Written(t)[2] && s[i + 3] == Written(t)[3];
      EmitsHexPair(s, i, t);
    }
  }

  /** `w` stands in `s` at `i`. */
  ghost predicate Holds(s: JsString, i: nat, w: JsString) {
    i + |w| <= |s| && forall j {:trigger s[j]} :: i <= j < i + |w| ==> s[j] == w[j - i]
  }

  lemma HoldsBoth(s: JsString, i: nat, w: JsString, rest: JsString)
    requires Holds(s, i, w + rest)
    ensures Holds(s, i, w) && Holds(s, i + |w|, rest)
  {
  }

  /** One token that starts behind the opening quote and before the closing quote. */
  lemma DecodesToken(s: JsString, i: nat, t: Token)
    requires WellFormed(t) && 0 < i && i + |Written(t)| < |s| && Holds(s, i, Written(t))
    ensures Decoded(s, i) == Meaning(t) + Decoded(s, i + |Written(t)|)
  {
    EmitsToken(s, i, t);
  }

  /** The closing quote is dropped. */
  lemma DecodesEnd(s: JsString, i: nat)
    requires 0 < i && i + 1 == |s| && IsSelfEscape(s[i])
    ensures Decoded(s, i) == []
  {
    assert Emitted(s, i) == [] && Stride(s, i) == 1;
  }

  lemma {:induction false} DecodesTokens(s: JsString, i: nat, ts: seq<Token>)
    requires AllWellFormed(ts) && 0 < i && i + |AllWritten(ts)| + 1 == |s|
    requires Holds(s, i, AllWritten(ts)) && IsSelfEscape(s[|s| - 1])
    ensures Decoded(s, i) == AllMeanings(ts)
    decreases |ts|
  {
    if ts == [] {
      DecodesEnd(s, i);
    } else {
      HoldsBoth(s, i, Written(ts[0]), AllWritten(ts[1..]));
      DecodesToken(s, i, ts[0]);
      DecodesTokens(s, i + |Written(ts[0])|, ts[1..]);
    }
  }

  /** Every literal decodes to the meanings of its tokens; unescaped quotes inside it are kept. */
  lemma LiteralDecodes(open: CodeUnit, ts: seq<Token>, close: CodeUnit)
    requires AllWellFormed(ts) && IsQuote(open) && IsQuote(close)
    ensures Decoded(Literal(open, ts, close), 0) == AllMeanings(ts)
  {
    var s := Literal(open, ts, close);
    assert Holds(s, 1, AllWritten(ts));
    DecodesTokens(s, 1, ts);
  }

  predicate IsQuote(c: CodeUnit) {
    c == DOUBLE_QUOTE || c == SINGLE_QUOTE
  }

  // ----- agreement with the standard -----

  /**
   The pieces of a string literal in strict mode code (section 12.9.4 of ECMA-262 2023). Besides the
   tokens above there are the escape of U+0000, four-digit and code point escapes, and line continuations.
   */
  datatype Piece =
    | Basic(t: Token)
    | Nul
    | Unicode(h1: CodeUnit, h2: CodeUnit, h3: CodeUnit, h4: CodeUnit)
    | CodePoint(digits: JsString)
    | Continuation(c: CodeUnit)
    | ContinuationCrLf

  const LETTER_U: CodeUnit := 0x75
  const LEFT_BRACE: CodeUnit := 0x7b
  const RIGHT_BRACE: CodeUnit := 0x7d
  const LINE_FEED: CodeUnit := 0x0a
  const CARRIAGE_RETURN: CodeUnit := 0x0d

  predicate IsLineTerminator(c: CodeUnit) {
    c == LINE_FEED || c == CARRIAGE_RETURN || c == 0x2028 || c == 0x2029
  }

  predicate IsDecimal(c: CodeUnit) { 48 <= c <= 57 }

  predicate AllHex(s: JsString) {
    forall c :: c in s ==> IsHexDigit(c)
  }

  /** The number that hexadecimal digits stand for. */
  function HexNumber(s: JsString): nat
    requires AllHex(s)
  {
    if s == [] then 0 else HexNumber(s[..|s| - 1]) * 16 + DigitValue(s[|s| - 1])
  }

  lemma HexNumberOne(c: CodeUnit)
    requires IsHexDigit(c)
    ensures AllHex([c]) && HexNumber([c]) == DigitValue(c)
  {
    var s: JsString := [c];
    assert s[..0] == [] && HexNumber(s[..0]) == 0;
  }

  lemma HexNumberTwo(c: CodeUnit, d: CodeUnit)
    requires IsHexDigit(c) && IsHexDigit(d)
    ensures AllHex([c, d]) && HexNumber([c, d]) == 16 * DigitValue(c) + DigitValue(d)
  {
    var s: JsString := [c, d];
    assert s[..1] == [c];
    HexNumberOne(c);
    assert HexNumber(s) == HexNumber(s[..1]) * 16 + DigitValue(d);
  }

  lemma {:induction false} AccumulateSnoc(v: JsString, c: CodeUnit, decimal: int, was: Option<int>)
    requires AllHex(v) && IsHexDigit(c)
    ensures var d := Accumulate(v, 16, Some(decimal), was);
            d.Some? && Accumulate(v + [c], 16, Some(decimal), was) == Some(d.value * 16 + DigitValue(c))
    decreases |v|
  {
    var all := v + [c];
    if v == [] {
      assert all[1..] == [];
      DigitIsValue(c, was);
    } else {
      assert all[0] == v[0] && all[1..] == v[1..] + [c];
      DigitIsValue(v[0], was);
      AccumulateSnoc(v[1..], c, decimal * 16 + DigitValue(v[0]), Some(DigitValue(v[0])));
    }
  }

  /** Hexadecimal digits, however many, accumulate to the number they stand for. */
  lemma {:induction false} DigitsAccumulate(v: JsString)
    requires AllHex(v)
    ensures Accumulate(v, 16, Some(0), Some(0)) == Some(HexNumber(v))
    decreases |v|
  {
    if v != [] {
      var n := |v| - 1;
      assert v == v[..n] + [v[n]];
      DigitsAccumulate(v[..n]);
      AccumulateSnoc(v[..n], v[n], 0, Some(0));
    }
  }

  /** Behind a digit, a colon or semicolon makes the number NaN, and any other character that is no digit repeats it. */
  lemma OtherCharacters(h: CodeUnit, c: CodeUnit)
    requires IsHexDigit(h) && !IsHexDigit(c)
    ensures Accumulate([h, c], 16, Some(0), Some(0)) == if 58 <= c <= 59 then None else Some(17 * DigitValue(h))
  {
    var v: JsString := [h, c];
    var d := DigitValue(h);
    DigitIsValue(h, Some(0));
    assert v[1..][0] == c && v[1..][1..] == [];
    assert Accumulate(v, 16, Some(0), Some(0)) == Accumulate(v[1..], 16, Some(d), Some(d));
    var next := if 58 <= c <= 59 then None else Some(d);
    assert DigitStep(c, Some(d)) == next;
    assert Accumulate(v[1..][1..], 16, if next.Some? then Some(d * 16 + d) else None, next)
        == if next.Some? then Some(d * 16 + d) else None;
  }

  /** Section 11.1.1 of ECMA-262 2023: a unit, or two surrogates. */
  function CodePointUnits(v: nat): JsString
    requires v <= 0x10ffff
  {
    if v <= 0xffff then [v] else [(v - 0x1_0000) / 0x400 + 0xd800, (v - 0x1_0000) % 0x400 + 0xdc00]
  }

  predicate WellFormedPiece(p: Piece) {
    match p
    case Basic(t) => WellFormed(t) && (t.Plain? ==> !IsDecimal(t.c) && t.c != LETTER_U && !IsLineTerminator(t.c))
    case Nul => true
    case Unicode(a, b, c, d) => IsHexDigit(a) && IsHexDigit(b) && IsHexDigit(c) && IsHexDigit(d)
    case CodePoint(ds) => ds != [] && AllHex(ds) && HexNumber(ds) <= 0x10ffff
    case Continuation(c) => IsLineTerminator(c)
    case ContinuationCrLf => true
  }

  /** Characters that are taken as they are. */
  function Raws(s: JsString): (ts: seq<Token>)
    requires BACKSLASH !in s
    ensures forall t :: t in ts ==> WellFormed(t)
  {
    if s == [] then [] else [Raw(s[0])] + Raws(s[1..])
  }

  /** How the decoder takes a piece: as a dropped escape, with the rest as ordinary characters. */
  function Taken(p: Piece): (ts: seq<Token>)
    requires WellFormedPiece(p)
    ensures forall t :: t in ts ==> WellFormed(t)
  {
    match p
    case Basic(t) => [t]
    case Nul => [Plain(48)]
    case Unicode(a, b, c, d) => [Plain(LETTER_U)] + Raws([a, b, c, d])
    case CodePoint(ds) => [Plain(LETTER_U)] + Raws([LEFT_BRACE] + ds + [RIGHT_BRACE])
    case Continuation(c) => [Plain(c)]
    case ContinuationCrLf => [Plain(CARRIAGE_RETURN)] + Raws([LINE_FEED])
  }

  /** What the decoder makes of a piece. */
  function DecodesTo(p: Piece): JsString
    requires WellFormedPiece(p)
  {
    match p
    case Basic(t) => Meaning(t)
    case Unicode(a, b, c, d) => [a, b, c, d]
    case CodePoint(ds) => [LEFT_BRACE] + ds + [RIGHT_BRACE]
    case ContinuationCrLf => [LINE_FEED]
    case _ => []
  }

  /** What a backslash and a character stand for: table 37 of ECMA-262 2023, and otherwise the character itself. */
  function EscapedChar(c: CodeUnit): CodeUnit {
    if c == 0x62 then 0x08 else if c == 0x74 then 0x09 else if c == 0x6e then 0x0a
    else if c == 0x76 then 0x0b else if c == 0x66 then 0x0c else if c == 0x72 then 0x0d
    else c
  }

  /** The string value of section 12.9.4.2 of ECMA-262 2023. */
  function StandardValue(p: Piece): JsString
    requires WellFormedPiece(p)
  {
    match p
    case Basic(Raw(c)) => [c]
    case Basic(Self(c)) => [EscapedChar(c)]
    case Basic(Control(k)) => [EscapedChar(CONTROL_LETTERS[k])]
    case Basic(Hex(high, low)) => [16 * DigitValue(high) + DigitValue(low)]
    case Basic(Plain(c)) => [EscapedChar(c)]
    case Nul => [0]
    case Unicode(a, b, c, d) => [FourDigits(a, b, c, d)]
    case CodePoint(ds) => CodePointUnits(HexNumber(ds))
    case Continuation(_) => []
    case ContinuationCrLf => []
  }

  /** Known tokens are decoded as the standard says. */
  lemma TokenIsStandard(t: Token)
    requires WellFormedPiece(Basic(t)) && !t.Plain?
    ensures StandardValue(Basic(t)) == Meaning(t)
  {
  }

  function FourDigits(a: CodeUnit, b: CodeUnit, c: CodeUnit, d: CodeUnit): CodeUnit
    requires IsHexDigit(a) && IsHexDigit(b) && IsHexDigit(c) && IsHexDigit(d)
  {
    ((DigitValue(a) * 16 + DigitValue(b)) * 16 + DigitValue(c)) * 16 + DigitValue(d)
  }

  /** The pieces whose decoding is their standard value. */
  predicate Faithful(p: Piece) {
    match p
    case Basic(t) => !t.Plain?
    case Continuation(_) => true
    case _ => false
  }

  ghost predicate AllPieces(ps: seq<Piece>) {
    forall p :: p in ps ==> WellFormedPiece(p)
  }

  ghost function AllTaken(ps: seq<Piece>): (ts: seq<Token>)
    requires AllPieces(ps)
    ensures AllWellFormed(ts)
  {
    if ps == [] then [] else Taken(ps[0]) + AllTaken(ps[1..])
  }

  ghost function AllResults(ps: seq<Piece>): JsString
    requires AllPieces(ps)
  {
    if ps == [] then [] else DecodesTo(ps[0]) + AllResults(ps[1..])
  }

  ghost function AllStandardValues(ps: seq<Piece>): JsString
    requires AllPieces(ps)
  {
    if ps == [] then [] else StandardValue(ps[0]) + AllStandardValues(ps[1..])
  }

  /** The source text of a literal made of pieces. */
  ghost function LiteralText(open: CodeUnit, ps: seq<Piece>, close: CodeUnit): JsString
    requires AllPieces(ps)
  {
    Literal(open, AllTaken(ps), close)
  }

  lemma {:induction false} MeaningsAppend(ts: seq<Token>, us: seq<Token>)
    requires AllWellFormed(ts) && AllWellFormed(us)
    ensures AllWellFormed(ts + us) && AllMeanings(ts + us) == AllMeanings(ts) + AllMeanings(us)
  {
    if ts == [] {
      assert ts + us == us;
    } else {
      assert (ts + us)[1..] == ts[1..] + us;
      MeaningsAppend(ts[1..], us);
    }
  }

  lemma FirstMeans(t: Token, ts: seq<Token>)
    requires AllWellFormed([t] + ts)
    ensures AllWellFormed(ts) && AllMeanings([t] + ts) == Meaning(t) + AllMeanings(ts)
  {
    assert ([t] + ts)[1..] == ts;
    assert forall u :: u in ts ==> u in [t] + ts;
  }

  lemma {:induction false} RawsMean(s: JsString)
    requires BACKSLASH !in s
    ensures AllMeanings(Raws(s)) == s
  {
    if s != [] {
      RawsMean(s[1..]);
      FirstMeans(Raw(s[0]), Raws(s[1..]));
    }
  }

  /** An escape that is dropped, and characters behind it. */
  lemma DroppedMeans(c: CodeUnit, s: JsString)
    requires WellFormed(Plain(c)) && BACKSLASH !in s
    ensures AllWellFormed([Plain(c)] + Raws(s)) && AllMeanings([Plain(c)] + Raws(s)) == s
  {
    FirstMeans(Plain(c), Raws(s));
    RawsMean(s);
  }

  lemma TakenMeans(p: Piece)
    requires WellFormedPiece(p)
    ensures AllMeanings(Taken(p)) == DecodesTo(p)
  {
    match p
    case Unicode(a, b, c, d) => DroppedMeans(LETTER_U, [a, b, c, d]);
    case CodePoint(ds) => DroppedMeans(LETTER_U, [LEFT_BRACE] + ds + [RIGHT_BRACE]);
    case ContinuationCrLf => DroppedMeans(CARRIAGE_RETURN, [LINE_FEED]);
    case _ =>
      assert Taken(p) == [Taken(p)[0]] + [];
      FirstMeans(Taken(p)[0], []);
  }

  lemma {:induction false} AllTakenMean(ps: seq<Piece>)
    requires AllPieces(ps)
    ensures AllMeanings(AllTaken(ps)) == AllResults(ps)
  {
    if ps != [] {
      TakenMeans(ps[0]);
      AllTakenMean(ps[1..]);
      MeaningsAppend(Taken(ps[0]), AllTaken(ps[1..]));
    }
  }

  // ----- counting characters -----

  /** How many units of a string lie in a range. */
  function Count(s: JsString, lo: int, hi: int): nat {
    if s == [] then 0 else (if lo <= s[0] <= hi then 1 else 0) + Count(s[1..], lo, hi)
  }

  lemma {:induction false} CountAppend(s: JsString, t: JsString, lo: int, hi: int)
    ensures Count(s + t, lo, hi) == Count(s, lo, hi) + Count(t, lo, hi)
  {
    if s == [] {
      assert s + t == t;
    } else {
      assert (s + t)[1..] == s[1..] + t;
      CountAppend(s[1..], t, lo, hi);
    }
  }

  /** The decoding of a piece has at least as many units in the range as its standard value. */
  predicate Gains(p: Piece, lo: int, hi: int)
    requires WellFormedPiece(p)
  {
    Count(DecodesTo(p), lo, hi) >= Count(StandardValue(p), lo, hi)
  }

  predicate Loses(p: Piece, lo: int, hi: int)
    requires WellFormedPiece(p)
  {
    Count(DecodesTo(p), lo, hi) <= Count(StandardValue(p), lo, hi)
  }

  lemma FirstCounts(ps: seq<Piece>, lo: int, hi: int)
    requires AllPieces(ps) && ps != []
    ensures Count(AllResults(ps), lo, hi) == Count(DecodesTo(ps[0]), lo, hi) + Count(AllResults(ps[1..]), lo, hi)
    ensures Count(AllStandardValues(ps), lo, hi)
            == Count(StandardValue(ps[0]), lo, hi) + Count(AllStandardValues(ps[1..]), lo, hi)
  {
    CountAppend(DecodesTo(ps[0]), AllResults(ps[1..]), lo, hi);
    CountAppend(StandardValue(ps[0]), AllStandardValues(ps[1..]), lo, hi);
  }

  lemma {:induction false} GainsAddUp(ps: seq<Piece>, lo: int, hi: int)
    requires AllPieces(ps) && forall p :: p in ps ==> Gains(p, lo, hi)
    ensures Count(AllResults(ps), lo, hi) >= Count(AllStandardValues(ps), lo, hi)
    ensures Count(AllResults(ps), lo, hi) == Count(AllStandardValues(ps), lo, hi) ==>
              forall p :: p in ps ==> Loses(p, lo, hi)
  {
    if ps != [] {
      GainsAddUp(ps[1..], lo, hi);
      FirstCounts(ps, lo, hi);
      assert Gains(ps[0], lo, hi);
      assert forall p :: p in ps ==> p == ps[0] || p in ps[1..];
    }
  }

  lemma {:induction false} LossesAddUp(ps: seq<Piece>, lo: int, hi: int)
    requires AllPieces(ps) && forall p :: p in ps ==> Loses(p, lo, hi)
    ensures Count(AllResults(ps), lo, hi) <= Count(AllStandardValues(ps), lo, hi)
    ensures Count(AllResults(ps), lo, hi) == Count(AllStandardValues(ps), lo, hi) ==>
              forall p :: p in ps ==> Gains(p, lo, hi)
  {
    if ps != [] {
      LossesAddUp(ps[1..], lo, hi);
      FirstCounts(ps, lo, hi);
      assert Loses(ps[0], lo, hi);
      assert forall p :: p in ps ==> p == ps[0] || p in ps[1..];
    }
  }

  lemma CountOne(c: CodeUnit, lo: int, hi: int)
    ensures Count([c], lo, hi) == if lo <= c <= hi then 1 else 0
  {
    assert [c][1..] == [];
  }

  lemma CountFour(a: CodeUnit, b: CodeUnit, c: CodeUnit, d: CodeUnit, lo: int, hi: int)
    ensures Count([a, b, c, d], lo, hi)
            == Count([a], lo, hi) + Count([b], lo, hi) + Count([c], lo, hi) + Count([d], lo, hi)
  {
    assert [a, b, c, d] == [a] + ([b] + ([c] + [d]));
    CountAppend([c], [d], lo, hi);
    CountAppend([b], [c] + [d], lo, hi);
    CountAppend([a], [b] + ([c] + [d]), lo, hi);
  }

  predicate AllLetters(p: Piece) {
    match p
    case Unicode(a, b, c, d) => !IsDecimal(a) && !IsDecimal(b) && !IsDecimal(c) && !IsDecimal(d)
    case CodePoint(ds) => Count(ds, 48, 57) == 0
    case _ => true
  }

  /** The braces of a code point escape count for nothing in a range without them. */
  lemma CountBraced(ds: JsString, lo: int, hi: int)
    requires hi < LEFT_BRACE || RIGHT_BRACE < lo
    ensures Count([LEFT_BRACE] + ds + [RIGHT_BRACE], lo, hi) == Count(ds, lo, hi)
  {
    CountAppend([LEFT_BRACE] + ds, [RIGHT_BRACE], lo, hi);
    CountAppend([LEFT_BRACE], ds, lo, hi);
    CountOne(LEFT_BRACE, lo, hi);
    CountOne(RIGHT_BRACE, lo, hi);
  }

  lemma CountLast(s: JsString, lo: int, hi: int)
    requires s != []
    ensures Count(s, lo, hi) == Count(s[..|s| - 1], lo, hi) + if lo <= s[|s| - 1] <= hi then 1 else 0
  {
    assert s == s[..|s| - 1] + [s[|s| - 1]];
    CountAppend(s[..|s| - 1], [s[|s| - 1]], lo, hi);
    CountOne(s[|s| - 1], lo, hi);
  }

  lemma {:induction false} CountOutside(s: JsString, lo: int, hi: int)
    requires AllHex(s) && (hi < 48 || 102 < lo)
    ensures Count(s, lo, hi) == 0
  {
    if s != [] {
      CountOutside(s[1..], lo, hi);
      assert IsHexDigit(s[0]);
    }
  }

  lemma CountUnits(v: nat, lo: int, hi: int)
    requires v <= 0x10ffff
    ensures v <= 0xffff ==> Count(CodePointUnits(v), lo, hi) == if lo <= v <= hi then 1 else 0
    ensures v > 0xffff && hi < 0xd800 ==> Count(CodePointUnits(v), lo, hi) == 0
    ensures v > 0xffff && lo <= 0xd800 && 0xdfff <= hi ==> Count(CodePointUnits(v), lo, hi) == 2
  {
    var u := CodePointUnits(v);
    if v <= 0xffff {
      CountOne(v, lo, hi);
    } else {
      assert u == [u[0]] + [u[1]] && 0xd800 <= u[0] < 0xdc00 <= u[1] <= 0xdfff;
      CountAppend([u[0]], [u[1]], lo, hi);
      CountOne(u[0], lo, hi);
      CountOne(u[1], lo, hi);
    }
  }

  /** The digits of a decimal character's code are decimal themselves. */
  lemma DecimalsOfDecimal(ds: JsString)
    requires AllHex(ds) && 48 <= HexNumber(ds) <= 57
    ensures Count(ds, 48, 57) >= 2
  {
    var high := ds[..|ds| - 1];
    CountLast(ds, 48, 57);
    assert IsHexDigit(ds[|ds| - 1]);
    assert HexNumber(high) == 3;
    assert IsHexDigit(high[|high| - 1]);
    CountLast(high, 48, 57);
  }

  /** A code without decimal digits is a single letter or far above the control characters. */
  lemma LettersOnly(ds: JsString)
    requires ds != [] && AllHex(ds) && Count(ds, 48, 57) == 0
    ensures (10 <= HexNumber(ds) <= 15 && |ds| == 1) || HexNumber(ds) >= 0xaa
  {
    var high := ds[..|ds| - 1];
    CountLast(ds, 48, 57);
    assert IsHexDigit(ds[|ds| - 1]);
    if high == [] {
      assert HexNumber(high) == 0;
    } else {
      CountLast(high, 48, 57);
      assert IsHexDigit(high[|high| - 1]);
    }
  }

  /**
   A four-digit or code point escape leaves its decimal digits in the result, and its value is a decimal
   digit only if two of its own are, as in `\u0030` to `\u0039`.
   */
  lemma DigitsRemain(p: Piece)
    requires WellFormedPiece(p)
    ensures Gains(p, 48, 57) && (Loses(p, 48, 57) ==> AllLetters(p))
  {
    match p
    case Basic(t) => if t.Plain? { CountOne(StandardValue(p)[0], 48, 57); }
    case Nul => CountOne(0, 48, 57);
    case Unicode(a, b, c, d) => FourDigitsRemain(a, b, c, d);
    case CodePoint(ds) =>
      CountBraced(ds, 48, 57);
      CountUnits(HexNumber(ds), 48, 57);
      if 48 <= HexNumber(ds) <= 57 {
        DecimalsOfDecimal(ds);
      }
    case Continuation(_) =>
    case ContinuationCrLf => CountOne(LINE_FEED, 48, 57);
  }

  lemma FourDigitsRemain(a: CodeUnit, b: CodeUnit, c: CodeUnit, d: CodeUnit)
    requires WellFormedPiece(Unicode(a, b, c, d))
    ensures var p := Unicode(a, b, c, d); Gains(p, 48, 57) && (Loses(p, 48, 57) ==> AllLetters(p))
  {
    var v := FourDigits(a, b, c, d);
    CountFour(a, b, c, d, 48, 57);
    CountOne(a, 48, 57);
    CountOne(b, 48, 57);
    CountOne(c, 48, 57);
    CountOne(d, 48, 57);
    CountOne(v, 48, 57);
    if IsDecimal(v) {
      assert DigitValue(a) == 0 && DigitValue(b) == 0 && DigitValue(c) == 3;
    }
  }

  /** What an escape of letters can only be when its value is not far above any letter. */
  predicate ShortCode(p: Piece) {
    !p.Unicode? && (p.CodePoint? ==> |p.digits| == 1 && AllHex(p.digits) && 10 <= HexNumber(p.digits) <= 15)
  }

  /** An escape of four letters, or of two or more in braces, has a value far above any letter. */
  lemma LettersAreHigh(p: Piece)
    requires WellFormedPiece(p) && AllLetters(p)
    ensures Loses(p, 0xaa, 0xffff) && (Gains(p, 0xaa, 0xffff) ==> ShortCode(p))
  {
    match p
    case Unicode(a, b, c, d) =>
      CountFour(a, b, c, d, 0xaa, 0xffff);
      CountOne(a, 0xaa, 0xffff);
      CountOne(b, 0xaa, 0xffff);
      CountOne(c, 0xaa, 0xffff);
      CountOne(d, 0xaa, 0xffff);
      CountOne(FourDigits(a, b, c, d), 0xaa, 0xffff);
    case CodePoint(ds) =>
      CountBraced(ds, 0xaa, 0xffff);
      CountOutside(ds, 0xaa, 0xffff);
      CountUnits(HexNumber(ds), 0xaa, 0xffff);
      LettersOnly(ds);
    case ContinuationCrLf => CountOne(LINE_FEED, 0xaa, 0xffff);
    case _ =>
  }

  /** `\u{a}` and `\u{A}`, which stand for a line feed. */
  predicate LineFeedEscape(p: Piece) { p == CodePoint([0x61]) || p == CodePoint([0x41]) }

  /** No piece adds a vertical tab or one of the four characters behind it. */
  lemma ControlsAreMissing(p: Piece)
    requires WellFormedPiece(p) && ShortCode(p)
    ensures Loses(p, 11, 15) && (Gains(p, 11, 15) ==> p.CodePoint? ==> LineFeedEscape(p))
  {
    match p
    case CodePoint(ds) =>
      CountBraced(ds, 11, 15);
      CountOutside(ds, 11, 15);
      CountUnits(HexNumber(ds), 11, 15);
      assert ds == [ds[0]];
      HexNumberOne(ds[0]);
    case ContinuationCrLf => CountOne(LINE_FEED, 11, 15);
    case _ =>
  }

  /** Without `\u{a}` only a CR LF continuation adds a line feed. */
  lemma LineFeedsRemain(p: Piece)
    requires WellFormedPiece(p) && !p.Unicode? && !p.CodePoint?
    ensures Gains(p, 10, 10) && (Loses(p, 10, 10) ==> !p.ContinuationCrLf?)
  {
    match p
    case Basic(t) => if t.Plain? { CountOne(StandardValue(p)[0], 10, 10); }
    case Nul => CountOne(0, 10, 10);
    case ContinuationCrLf => CountOne(LINE_FEED, 10, 10);
    case _ =>
  }

  /** Without CR LF continuations `\u{a}` leaves a line feed missing. */
  lemma LineFeedsAreMissing(p: Piece)
    requires WellFormedPiece(p) && !p.ContinuationCrLf? && !p.Unicode? && (p.CodePoint? ==> LineFeedEscape(p))
    ensures Loses(p, 10, 10) && (Gains(p, 10, 10) ==> !p.CodePoint?)
  {
    match p
    case CodePoint(ds) =>
      CountBraced(ds, 10, 10);
      CountOutside(ds, 10, 10);
      CountUnits(HexNumber(ds), 10, 10);
      HexNumberOne(ds[0]);
    case _ =>
  }

  /** What is left to differ is shorter than it should be. */
  lemma DroppedIsMissing(p: Piece)
    requires WellFormedPiece(p) && !p.Unicode? && !p.CodePoint? && !p.ContinuationCrLf?
    ensures Loses(p, 0, 0xffff) && (Gains(p, 0, 0xffff) ==> Faithful(p))
  {
    match p
    case Basic(t) => if t.Plain? { CountOne(StandardValue(p)[0], 0, 0xffff); }
    case Nul => CountOne(0, 0, 0xffff);
    case _ =>
  }

  /** No CR LF continuation whose line feed could pass for that of a code point escape. */
  ghost predicate NoStrayLineFeed(ps: seq<Piece>) {
    ContinuationCrLf !in ps || forall p :: p in ps ==> !LineFeedEscape(p)
  }

  lemma EscapesLeaveTraces(ps: seq<Piece>)
    requires AllPieces(ps) && AllResults(ps) == AllStandardValues(ps)
    ensures forall p :: p in ps ==> !p.Unicode? && (p.CodePoint? ==> LineFeedEscape(p))
  {
    forall p | p in ps ensures Gains(p, 48, 57) && (Loses(p, 48, 57) ==> AllLetters(p)) { DigitsRemain(p); }
    GainsAddUp(ps, 48, 57);
    forall p | p in ps ensures Loses(p, 0xaa, 0xffff) && (Gains(p, 0xaa, 0xffff) ==> ShortCode(p)) { LettersAreHigh(p); }
    LossesAddUp(ps, 0xaa, 0xffff);
    forall p | p in ps ensures Loses(p, 11, 15) && (Gains(p, 11, 15) ==> p.CodePoint? ==> LineFeedEscape(p)) {
      ControlsAreMissing(p);
    }
    LossesAddUp(ps, 11, 15);
  }

  lemma LineFeedsTell(ps: seq<Piece>)
    requires AllPieces(ps) && AllResults(ps) == AllStandardValues(ps) && NoStrayLineFeed(ps)
    requires forall p :: p in ps ==> !p.Unicode? && (p.CodePoint? ==> LineFeedEscape(p))
    ensures forall p :: p in ps ==> !p.CodePoint? && !p.ContinuationCrLf?
  {
    if ContinuationCrLf in ps {
      forall p | p in ps ensures Gains(p, 10, 10) && (Loses(p, 10, 10) ==> !p.ContinuationCrLf?) { LineFeedsRemain(p); }
      GainsAddUp(ps, 10, 10);
    } else {
      forall p | p in ps ensures Loses(p, 10, 10) && (Gains(p, 10, 10) ==> !p.CodePoint?) { LineFeedsAreMissing(p); }
      LossesAddUp(ps, 10, 10);
    }
  }

  /** Mistakes do not cancel out: equal strings mean that every piece was decoded faithfully. */
  lemma EqualMeansFaithful(ps: seq<Piece>)
    requires AllPieces(ps) && AllResults(ps) == AllStandardValues(ps) && NoStrayLineFeed(ps)
    ensures forall p :: p in ps ==> Faithful(p)
  {
    EscapesLeaveTraces(ps);
    LineFeedsTell(ps);
    forall p | p in ps ensures Loses(p, 0, 0xffff) && (Gains(p, 0, 0xffff) ==> Faithful(p)) { DroppedIsMissing(p); }
    LossesAddUp(ps, 0, 0xffff);
  }

  lemma {:induction false} FaithfulMeansEqual(ps: seq<Piece>)
    requires AllPieces(ps) && forall p :: p in ps ==> Faithful(p)
    ensures AllResults(ps) == AllStandardValues(ps)
  {
    if ps != [] {
      assert Faithful(ps[0]);
      if ps[0].Basic? {
        TokenIsStandard(ps[0].t);
      }
      FaithfulMeansEqual(ps[1..]);
    }
  }

  /**
   The decoder gives a literal its standard value exactly when every piece is a token it knows or a simple
   line continuation, unless the literal holds both a CR LF continuation and `\u{a}` or `\u{A}`.
   */
  lemma StandardIffFaithful(open: CodeUnit, ps: seq<Piece>, close: CodeUnit)
    requires AllPieces(ps) && IsQuote(open) && IsQuote(close)
    ensures (forall p :: p in ps ==> Faithful(p)) ==> Decoded(LiteralText(open, ps, close), 0) == AllStandardValues(ps)
    ensures NoStrayLineFeed(ps) ==>
              (Decoded(LiteralText(open, ps, close), 0) == AllStandardValues(ps) <==> forall p :: p in ps ==> Faithful(p))
  {
    LiteralDecodes(open, AllTaken(ps), close);
    AllTakenMean(ps);
    if AllResults(ps) == AllStandardValues(ps) && NoStrayLineFeed(ps) {
      EqualMeansFaithful(ps);
    }
    if forall p :: p in ps ==> Faithful(p) {
      FaithfulMeansEqual(ps);
    }
  }

  lemma FirstPiece(p: Piece, ps: seq<Piece>, result: JsString, value: JsString)
    requires WellFormedPiece(p) && AllPieces(ps) && AllResults(ps) == result && AllStandardValues(ps) == value
    ensures AllPieces([p] + ps)
    ensures AllResults([p] + ps) == DecodesTo(p) + result
    ensures AllStandardValues([p] + ps) == StandardValue(p) + value
  {
    assert ([p] + ps)[1..] == ps;
  }

  lemma LineFeedCode()
    ensures WellFormedPiece(CodePoint([0x61])) && StandardValue(CodePoint([0x61])) == [LINE_FEED]
    ensures DecodesTo(CodePoint([0x61])) == [LEFT_BRACE, 0x61, RIGHT_BRACE]
  {
    HexNumberOne(0x61);
  }

  /** The pieces of `\{\a\}\u{a}` and a CR LF continuation. */
  function Cancelling(): seq<Piece> {
    [Basic(Plain(LEFT_BRACE))] + ([Basic(Plain(0x61))] + ([Basic(Plain(RIGHT_BRACE))] + ([CodePoint([0x61])] + [ContinuationCrLf])))
  }

  lemma CancellingValues()
    ensures AllPieces(Cancelling())
    ensures AllResults(Cancelling()) == [LEFT_BRACE, 0x61, RIGHT_BRACE, LINE_FEED] == AllStandardValues(Cancelling())
  {
    LineFeedCode();
    var crlf := [ContinuationCrLf];
    assert crlf[1..] == [];
    FirstPiece(CodePoint([0x61]), crlf, [LINE_FEED], []);
    DroppedFirst(RIGHT_BRACE, [CodePoint([0x61])] + crlf);
    DroppedFirst(0x61, [Basic(Plain(RIGHT_BRACE))] + ([CodePoint([0x61])] + crlf));
    DroppedFirst(LEFT_BRACE, [Basic(Plain(0x61))] + ([Basic(Plain(RIGHT_BRACE))] + ([CodePoint([0x61])] + crlf)));
  }

  lemma DroppedFirst(c: CodeUnit, ps: seq<Piece>)
    requires WellFormedPiece(Basic(Plain(c))) && c != 0x76 && AllPieces(ps)
    ensures AllPieces([Basic(Plain(c))] + ps)
    ensures AllResults([Basic(Plain(c))] + ps) == AllResults(ps)
    ensures AllStandardValues([Basic(Plain(c))] + ps) == [c] + AllStandardValues(ps)
  {
    FirstPiece(Basic(Plain(c)), ps, AllResults(ps), AllStandardValues(ps));
  }

  /**
   With both, mistakes can cancel out: the escapes of `{`, `a` and `}` are dropped, `\u{a}` turns into
   these three characters, and a CR LF continuation leaves the line feed that `\u{a}` stands for.
   */
  lemma MistakesCancel(quote: CodeUnit)
    requires IsQuote(quote)
    ensures var ps := Cancelling();
            && AllPieces(ps) && (forall p :: p in ps ==> !Faithful(p))
            && Decoded(LiteralText(quote, ps, quote), 0) == AllStandardValues(ps)
  {
    CancellingValues();
    LiteralDecodes(quote, AllTaken(Cancelling()), quote);
    AllTakenMean(Cancelling());
  }

  /** A literal of one piece decodes to the piece's result. */
  lemma OnePieceDecodes(p: Piece, quote: CodeUnit)
    requires WellFormedPiece(p) && IsQuote(quote)
    ensures AllPieces([p]) && Decoded(LiteralText(quote, [p], quote), 0) == DecodesTo(p)
  {
    assert [p][1..] == [];
    LiteralDecodes(quote, AllTaken([p]), quote);
    AllTakenMean([p]);
  }

  /** `"\0"` decodes to the empty string, `"\u0041"` to `0041`, and a CR LF continuation to a line feed. */
  lemma UnfaithfulPieces()
    ensures Decoded(LiteralText(DOUBLE_QUOTE, [Nul], DOUBLE_QUOTE), 0) == [] != StandardValue(Nul)
    ensures Decoded(LiteralText(DOUBLE_QUOTE, [Unicode(0x30, 0x30, 0x34, 0x31)], DOUBLE_QUOTE), 0)
            == [0x30, 0x30, 0x34, 0x31] != StandardValue(Unicode(0x30, 0x30, 0x34, 0x31)) == [0x41]
    ensures Decoded(LiteralText(DOUBLE_QUOTE, [ContinuationCrLf], DOUBLE_QUOTE), 0)
            == [LINE_FEED] != StandardValue(ContinuationCrLf)
  {
    OnePieceDecodes(Nul, DOUBLE_QUOTE);
    OnePieceDecodes(Unicode(0x30, 0x30, 0x34, 0x31), DOUBLE_QUOTE);
    OnePieceDecodes(ContinuationCrLf, DOUBLE_QUOTE);
  }

  /** `"\u{41}"` decodes to `{41}`. */
  lemma UnfaithfulCodePoint()
    ensures var p := CodePoint([0x34, 0x31]);
            && WellFormedPiece(p) && StandardValue(p) == [0x41]
            && Decoded(LiteralText(DOUBLE_QUOTE, [p], DOUBLE_QUOTE), 0) == [LEFT_BRACE, 0x34, 0x31, RIGHT_BRACE]
  {
    HexNumberTwo(0x34, 0x31);
    OnePieceDecodes(CodePoint([0x34, 0x31]), DOUBLE_QUOTE);
  }

  // ----- encoding -----

  datatype Style = AsIs | Short | HexUpper | HexLower

  function HexDigit(d: int, style: Style): (c: CodeUnit)
    requires 0 <= d < 16
    ensures IsHexDigit(c) && DigitValue(c) == d
  {
    if d < 10 then 48 + d else if style.HexLower? then 87 + d else 55 + d
  }

  function HexToken(c: CodeUnit, style: Style): Token
    requires c < 0x100
  {
    Hex(HexDigit(c / 16, style), HexDigit(c % 16, style))
  }

  function ControlOf(c: CodeUnit): (r: int)
    ensures -1 <= r < 5
    ensures r >= 0 ==> CONTROLS[r] == c
  {
    if c == 0x0a then 0 else if c == 0x0d then 1 else if c == 0x09 then 2
    else if c == 0x08 then 3 else if c == 0x0c then 4 else -1
  }

  /** A style that does not suit the character falls back to a hexadecimal pair. */
  function Encoded(c: CodeUnit, style: Style): (t: Token)
    requires c < 0x100
    ensures WellFormed(t) && Meaning(t) == [c] && !t.Plain?
  {
    if style.AsIs? && !IsSelfEscape(c) then Raw(c)
    else if style.Short? && IsSelfEscape(c) then Self(c)
    else if style.Short? && ControlOf(c) >= 0 then Control(ControlOf(c))
    else HexToken(c, style)
  }

  predicate EightBit(s: JsString) {
    forall i :: 0 <= i < |s| ==> s[i] < 0x100
  }

  function AllEncoded(s: JsString, styles: seq<Style>): (ts: seq<Token>)
    requires EightBit(s) && |styles| == |s|
    ensures |ts| == |s|
  {
    seq(|s|, i requires 0 <= i < |s| => Encoded(s[i], styles[i]))
  }

  lemma {:induction false} EncodedMeans(s: JsString, styles: seq<Style>)
    requires EightBit(s) && |styles| == |s|
    ensures AllWellFormed(AllEncoded(s, styles)) && AllMeanings(AllEncoded(s, styles)) == s
  {
    if s != [] {
      var ts := AllEncoded(s, styles);
      EncodedMeans(s[1..], styles[1..]);
      assert ts[1..] == AllEncoded(s[1..], styles[1..]);
      assert s == [s[0]] + s[1..];
    }
  }

  /** Whatever style each character is encoded in, decoding the quoted text gives the string back. */
  lemma EscapeRoundTrip(s: JsString, styles: seq<Style>, quote: CodeUnit)
    requires EightBit(s) && |styles| == |s| && IsQuote(quote)
    ensures AllWellFormed(AllEncoded(s, styles))
    ensures Decoded(Literal(quote, AllEncoded(s, styles), quote), 0) == s
  {
    EncodedMeans(s, styles);
    LiteralDecodes(quote, AllEncoded(s, styles), quote);
  }
}
