/**
 Turning an array of strings into one string in two passes: the first pass measures,
 the second advances a write cursor through a buffer of exactly the measured length.
 */
module ArrayJoin {
  import opened Prelude

  type byte = bv8

  /** An array entry: a null reference, a string, or an object of another type. */
  datatype Entry = Null | Text(bytes: seq<byte>) | Other

  const DEFAULT_SEPARATOR: seq<byte> := [',' as int as bv8]

  const NOT_IMPLEMENTED := "array join for non-string type not implemented"

  /** A null entry reads as the empty string. */
  function TextOf(e: Entry): seq<byte> {
    if e.Text? then e.bytes else []
  }

  function Texts(entries: seq<Entry>): (r: seq<seq<byte>>)
    ensures |r| == |entries|
  {
    seq(|entries|, i requires 0 <= i < |entries| => TextOf(entries[i]))
  }

  /** The text of a string entry, and of a null one. */
  predicate Reads(e: Entry, text: seq<byte>) {
    e == Text(text) || (e == Null && text == [])
  }

  /** The texts are those of the entries, with nothing in the place of null. */
  lemma TextsAre(entries: seq<Entry>, texts: seq<seq<byte>>)
    requires |entries| == |texts| && forall i :: 0 <= i < |entries| ==> Reads(entries[i], texts[i])
    ensures Texts(entries) == texts
  {
    assert forall i :: 0 <= i < |entries| ==> Texts(entries)[i] == texts[i];
  }

  /** The first `n` parts, each followed by the separator. */
  function Padded(parts: seq<seq<byte>>, separator: seq<byte>, n: nat): seq<byte>
    requires n <= |parts|
  {
    if n == 0 then [] else Padded(parts, separator, n - 1) + parts[n - 1] + separator
  }

  lemma {:induction false} PaddedFromFront(parts: seq<seq<byte>>, separator: seq<byte>, n: nat)
    requires 0 < n <= |parts|
    ensures Padded(parts, separator, n) == parts[0] + separator + Padded(parts[1..], separator, n - 1)
  {
    if n > 1 {
      PaddedFromFront(parts, separator, n - 1);
      var rest := Padded(parts[1..], separator, n - 2);
      assert Padded(parts[1..], separator, n - 1) == rest + parts[n - 1] + separator;
      assert parts[0] + separator + rest + parts[n - 1] + separator
          == parts[0] + separator + (rest + parts[n - 1] + separator);
    } else {
      assert Padded(parts, separator, 0) == Padded(parts[1..], separator, 0) == [];
    }
  }

  /** Dropping the separator behind the last part leaves the join. */
  lemma {:induction false} PaddedIsJoined(parts: seq<seq<byte>>, separator: seq<byte>)
    requires parts != []
    ensures Padded(parts, separator, |parts|) == Join(parts, separator) + separator
  {
    PaddedFromFront(parts, separator, |parts|);
    if |parts| > 1 {
      PaddedIsJoined(parts[1..], separator);
      var rest := Join(parts[1..], separator);
      assert parts[0] + separator + (rest + separator) == parts[0] + separator + rest + separator;
    }
  }

  /** So the last part ends the join. */
  lemma JoinedEnds(parts: seq<seq<byte>>, separator: seq<byte>)
    requires parts != []
    ensures var n := |parts| - 1;
            Join(parts, separator) == Padded(parts, separator, n) + parts[n]
  {
    PaddedIsJoined(parts, separator);
    var n := |parts| - 1;
    var all := Padded(parts, separator, n) + parts[n];
    assert all + separator == Join(parts, separator) + separator;
    assert (all + separator)[..|all|] == all;
    assert (Join(parts, separator) + separator)[..|all|] == Join(parts, separator);
  }

  /** What is written while entries remain fits, with the next separator, into the measured length. */
  lemma {:induction false} PaddedFits(parts: seq<seq<byte>>, separator: seq<byte>, i: nat, n: nat)
    requires i < n <= |parts|
    ensures |Padded(parts, separator, i)| + |parts[i]| + |separator| <= |Padded(parts, separator, n)|
    decreases n
  {
    if i + 1 < n {
      PaddedFits(parts, separator, i, n - 1);
    }
  }

  /** `bh_memcpy_s`, within bounds. */
  method CopyBytes(buffer: array<byte>, p: nat, room: nat, bytes: seq<byte>)
    requires |bytes| <= room && p + room <= buffer.Length
    modifies buffer
    ensures buffer[..p + |bytes|] == old(buffer[..p]) + bytes
  {
    forall k | 0 <= k < |bytes| {
      buffer[p + k] := bytes[k];
    }
  }

  /** The first pass over the entries; it fails on the first one that is neither null nor a string. */
  method Measure(entries: seq<Entry>, lengths: array<nat>, texts: array<seq<byte>>) returns (ok: bool)
    requires lengths.Length == texts.Length == |entries|
    modifies lengths, texts
    ensures ok <==> Other !in entries
    ensures ok ==> texts[..] == Texts(entries) && forall k :: 0 <= k < |entries| ==> lengths[k] == |texts[k]|
  {
    var i := 0;
    while i < |entries|
      invariant i <= |entries| && Other !in entries[..i]
      invariant forall k :: 0 <= k < i ==> texts[k] == TextOf(entries[k]) && lengths[k] == |texts[k]|
    {
      match entries[i] {
      case Null =>
        lengths[i], texts[i] := 0, [];
      case Text(bytes) =>
        lengths[i], texts[i] := |bytes|, bytes;
      case Other =>
        return false;
      }
      i := i + 1;
    }
    assert entries[..|entries|] == entries;
    ok := true;
  }

  /** The length of the result: every entry with a separator, less the last separator. */
  method ResultLength(lengths: array<nat>, ghost parts: seq<seq<byte>>, sepLen: nat, ghost separator: seq<byte>)
    returns (resultLen: nat)
    requires |parts| == lengths.Length && sepLen == |separator|
    requires forall k :: 0 <= k < |parts| ==> lengths[k] == |parts[k]|
    ensures resultLen == |Join(parts, separator)|
  {
    resultLen := 0;
    var i := 0;
    while i < lengths.Length
      invariant i <= lengths.Length && resultLen == |Padded(parts, separator, i)|
    {
      resultLen := resultLen + lengths[i] + sepLen;
      i := i + 1;
    }
    if lengths.Length >= 1 {
      PaddedIsJoined(parts, separator);
      resultLen := resultLen - sepLen;
    }
  }

  /** What stands before the cursor when `i` entries are written. */
  function Written(texts: seq<seq<byte>>, separator: seq<byte>, i: nat): seq<byte>
    requires i <= |texts|
  {
    if i < |texts| then Padded(texts, separator, i) else Join(texts, separator)
  }

  /** One entry and, unless it is the last, the separator: both fit and extend what is written. */
  lemma WrittenExtends(texts: seq<seq<byte>>, separator: seq<byte>, i: nat)
    requires i < |texts|
    ensures var now := Written(texts, separator, i) + texts[i];
            && |now| <= |Join(texts, separator)|
            && (i == |texts| - 1 ==> Written(texts, separator, i + 1) == now)
            && (i < |texts| - 1 ==> Written(texts, separator, i + 1) == now + separator
                                    && |now| + |separator| <= |Join(texts, separator)|)
  {
    JoinedEnds(texts, separator);
    if i < |texts| - 1 {
      PaddedFits(texts, separator, i, |texts| - 1);
    }
  }

  /** The second pass: the cursor ends exactly at the end of the buffer. */
  method WriteAll(buffer: array<byte>, texts: seq<seq<byte>>, separator: seq<byte>) returns (p: nat)
    requires buffer.Length == |Join(texts, separator)|
    modifies buffer
    ensures p == buffer.Length && buffer[..] == Join(texts, separator)
  {
    var len, pEnd := |texts|, buffer.Length;
    p := 0;
    var i := 0;
    while i < len
      invariant i <= len && p <= pEnd && p == |Written(texts, separator, i)|
      invariant buffer[..p] == Written(texts, separator, i)
    {
      WrittenExtends(texts, separator, i);
      ghost var written, now := Written(texts, separator, i), Written(texts, separator, i) + texts[i];
      assert |now| == p + |texts[i]|;
      CopyBytes(buffer, p, pEnd - p, texts[i]);
      p := p + |texts[i]|;
      assert buffer[..p] == now;
      if i < len - 1 {
        CopyBytes(buffer, p, pEnd - p, separator);
        p := p + |separator|;
      }
      i := i + 1;
    }
    assert buffer[..p] == buffer[..];
  }

  /** A missing separator means a comma. */
  method ArrayToString(entries: seq<Entry>, separator: Option<seq<byte>>) returns (r: Result<seq<byte>>)
    ensures r == if Other in entries then Err(NOT_IMPLEMENTED)
                 else Ok(Join(Texts(entries), if separator.Some? then separator.value else DEFAULT_SEPARATOR))
  {
    var lengths, texts := new nat[|entries|], new seq<byte>[|entries|];
    var ok := Measure(entries, lengths, texts);
    if !ok {
      return Err(NOT_IMPLEMENTED);
    }
    var sep := if separator.Some? then separator.value else DEFAULT_SEPARATOR;
    var resultLen := ResultLength(lengths, texts[..], |sep|, sep);
    var buffer := new byte[resultLen](_ => 0);
    var p := WriteAll(buffer, texts[..], sep);
    r := Ok(buffer[..]);
  }
}
