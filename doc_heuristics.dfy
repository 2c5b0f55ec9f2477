/** The helpers of components/GoogleDriveSearch.js that look at a Word file's
    bytes and text on their own: the signature sniff, the choice among
    decodings, and the two line cuts.

    Decoders are passed in: a decoding is the text one decoder gave, or None
    when that decoder threw. */
module DocHeuristics {
  import opened Wrappers
  import opened Strings

  // ---------------------------------------------------------------------
  // isLikelyValidDoc

  /** The OLE compound file signature. */
  const OleSignature: seq<Byte> := [0xD0, 0xCF, 0x11, 0xE0, 0xA1, 0xB1, 0x1A, 0xE1]
  /** The older Word signature. */
  const WordSignature: seq<Byte> := [0xEC, 0xA5, 0xC1, 0x00]
  /** The Word 6.0/95 signature. */
  const Word6Signature: seq<Byte> := [0xDB, 0xA5, 0x2D, 0x00]
  const DocSignatures: seq<seq<Byte>> := [OleSignature, WordSignature, Word6Signature]
  const HeaderLength := 8

  /** The header is at least as long as the signature and agrees with it
      byte by byte. */
  predicate SignatureMatches(header: seq<Byte>, sig: seq<Byte>) {
    |header| >= |sig| && forall i :: 0 <= i < |sig| ==> sig[i] == header[i]
  }

  /** Matching the header is matching the start of the whole buffer, for a
      signature no longer than the header. */
  lemma HeaderMatch(buffer: seq<Byte>, sig: seq<Byte>)
    requires |sig| <= HeaderLength <= |buffer|
    ensures SignatureMatches(buffer[..HeaderLength], sig) <==> sig <= buffer
  {
    if sig <= buffer {
      assert forall i :: 0 <= i < |sig| ==> sig[i] == buffer[i];
    }
    if SignatureMatches(buffer[..HeaderLength], sig) {
      assert sig == buffer[..|sig|];
    }
  }

  /** A buffer is taken for a Word file when it has at least eight bytes and
      one of the signatures begins it. */
  function IsLikelyValidDoc(buffer: Option<seq<Byte>>): (r: bool)
    ensures r <==> buffer.Some? && |buffer.value| >= HeaderLength
                   && exists k :: 0 <= k < |DocSignatures| && DocSignatures[k] <= buffer.value
  {
    if buffer.None? || |buffer.value| < HeaderLength then false
    else
      var header := buffer.value[..HeaderLength];
      HeaderMatch(buffer.value, OleSignature);
      HeaderMatch(buffer.value, WordSignature);
      HeaderMatch(buffer.value, Word6Signature);
      assert DocSignatures[0] == OleSignature && DocSignatures[1] == WordSignature
             && DocSignatures[2] == Word6Signature;
      SignatureMatches(header, OleSignature) || SignatureMatches(header, WordSignature)
      || SignatureMatches(header, Word6Signature)
  }

  /** Seven bytes of the OLE signature are too short; an old Word header
      followed by anything passes. */
  lemma SignatureExamples()
    ensures !IsLikelyValidDoc(Some(OleSignature[..7]))
    ensures IsLikelyValidDoc(Some(WordSignature + [0x41, 0x42, 0x43, 0x44]))
    ensures !IsLikelyValidDoc(Some([0x25, 0x50, 0x44, 0x46, 0x2D, 0x31, 0x2E, 0x34]))
  {
    var b := WordSignature + [0x41, 0x42, 0x43, 0x44];
    assert DocSignatures[1] <= b;
    var pdf: seq<Byte> := [0x25, 0x50, 0x44, 0x46, 0x2D, 0x31, 0x2E, 0x34];
    forall k | 0 <= k < |DocSignatures|
      ensures !(DocSignatures[k] <= pdf)
    {
      assert DocSignatures[k][0] != pdf[0];
    }
  }

  // ---------------------------------------------------------------------
  // the line cuts

  /** Joining the first m lines of a text gives a prefix of the text, made
      of exactly those lines. */
  lemma KeptLines(text: string, m: nat)
    requires m <= |Split(text, '\n')|
    ensures StartsWith(text, Join(Split(text, '\n')[..m], "\n"))
    ensures m > 0 ==> Split(Join(Split(text, '\n')[..m], "\n"), '\n') == Split(text, '\n')[..m]
  {
    var lines := Split(text, '\n');
    JoinOfSplit(text, '\n');
    JoinOfPrefix(lines, m, "\n");
    if m > 0 {
      SplitOfJoin(lines[..m], '\n');
    }
  }

  const DefaultLineCount := 23
  /** How many lines from the marker line on are kept: the marker line and
      the three after it. */
  const MarkerContext := 4

  /** line.toLowerCase().includes(marker.toLowerCase()) */
  predicate Mentions(line: string, marker: string) {
    Contains(Lower(line), Lower(marker))
  }

  /** How many lines extractUntilMarker keeps: through three lines past the
      first line that mentions the marker, or defaultLineCount when none
      does or there is no marker or no text. */
  function MarkerCut(text: string, marker: string, defaultLineCount: nat): (n: nat)
    ensures n <= |Split(text, '\n')|
    ensures marker == "" || text == "" ==> n == Min(defaultLineCount, |Split(text, '\n')|)
    ensures forall k :: 0 <= k < |Split(text, '\n')| && marker != "" && text != ""
                        && Mentions(Split(text, '\n')[k], marker)
                        && (forall j :: 0 <= j < k ==> !Mentions(Split(text, '\n')[j], marker))
                        ==> n == Min(k + MarkerContext, |Split(text, '\n')|)
    ensures (forall j :: 0 <= j < |Split(text, '\n')| ==> !Mentions(Split(text, '\n')[j], marker))
            ==> n == Min(defaultLineCount, |Split(text, '\n')|)
  {
    var lines := Split(text, '\n');
    if marker == "" || text == "" then Min(defaultLineCount, |lines|)
    else
      var k := FirstIndexWhere(lines, line => Mentions(line, marker));
      if k == -1 then Min(defaultLineCount, |lines|) else Min(k + MarkerContext, |lines|)
  }

  /** extractUntilMarker: the first lines of the text, as many as MarkerCut
      says, joined back with newlines. */
  function ExtractUntilMarker(text: string, marker: string, defaultLineCount: nat := DefaultLineCount): (r: string)
    ensures StartsWith(text, r)
    ensures var n := MarkerCut(text, marker, defaultLineCount);
      n > 0 ==> Split(r, '\n') == Split(text, '\n')[..n]
    ensures MarkerCut(text, marker, defaultLineCount) == 0 ==> r == ""
  {
    var n := MarkerCut(text, marker, defaultLineCount);
    KeptLines(text, n);
    Join(Split(text, '\n')[..n], "\n")
  }

  const ReferenceWord := "reference"
  /** How many lines extractUntilReference keeps when none mentions the
      word. */
  const ReferenceFallbackLines := 100

  predicate MentionsReference(line: string) {
    Contains(Lower(line), ReferenceWord)
  }

  /** What extractUntilReference returns: nothing for an empty text;
      otherwise the lines through the first that mentions "reference", or
      the first hundred. */
  function UntilReference(text: string): string {
    if text == "" then ""
    else Join(KeepThrough(Split(text, '\n'), MentionsReference, ReferenceFallbackLines), "\n")
  }

  /** extractUntilReference, with its search loop. */
  method ExtractUntilReference(text: string) returns (r: string)
    ensures r == UntilReference(text)
  {
    if text == "" {
      return "";
    }
    var lines := Split(text, '\n');
    var referenceLineIndex := -1;
    for i := 0 to |lines|
      invariant referenceLineIndex == -1
      invariant forall j :: 0 <= j < i ==> !MentionsReference(lines[j])
    {
      if Contains(Lower(lines[i]), ReferenceWord) {
        referenceLineIndex := i;
        break;
      }
    }
    var kept;
    if referenceLineIndex >= 0 {
      kept := lines[..referenceLineIndex + 1];
    } else {
      kept := lines[..Min(ReferenceFallbackLines, |lines|)];
    }
    assert kept == KeepThrough(lines, MentionsReference, ReferenceFallbackLines);
    r := Join(kept, "\n");
  }

  /** The text extractUntilReference returns starts the input, is made of
      its first lines, and holds more than a hundred of them only when the
      last one mentions "reference". */
  lemma UntilReferenceKeepsLines(text: string)
    requires text != ""
    ensures StartsWith(text, UntilReference(text))
    ensures var kept := KeepThrough(Split(text, '\n'), MentionsReference, ReferenceFallbackLines);
      && Split(UntilReference(text), '\n') == kept
      && (|kept| > ReferenceFallbackLines ==> MentionsReference(kept[|kept| - 1]))
  {
    var lines := Split(text, '\n');
    var kept := KeepThrough(lines, MentionsReference, ReferenceFallbackLines);
    KeepThroughBound(lines, MentionsReference, ReferenceFallbackLines);
    assert |kept| > 0;
    assert kept == lines[..|kept|];
    KeptLines(text, |kept|);
  }

  // ---------------------------------------------------------------------
  // choosing a decoding

  const Encodings := ["utf-8", "utf-16le", "utf-16be", "latin1"]

  /** The characters the readability count keeps: [\x20-\x7E\n\r\t]. */
  predicate IsReadable(c: char) {
    (' ' <= c <= '~') || c == '\n' || c == '\r' || c == '\t'
  }

  function ReadableCount(s: string): (n: nat)
    ensures n <= |s|
  {
    |Keep(s, IsReadable)|
  }

  /** Decoding k is the one to keep: it has readable characters, none has
      more, and every earlier one has fewer. */
  predicate IsBestDecoding(decodings: seq<Option<string>>, k: int) {
    && 0 <= k < |decodings| && decodings[k].Some?
    && ReadableCount(decodings[k].value) > 0
    && (forall j :: 0 <= j < |decodings| && decodings[j].Some? ==>
          ReadableCount(decodings[j].value) <= ReadableCount(decodings[k].value))
    && (forall j :: 0 <= j < k && decodings[j].Some? ==>
          ReadableCount(decodings[j].value) < ReadableCount(decodings[k].value))
  }

  /** At most one decoding is the one to keep. */
  lemma BestDecodingUnique(decodings: seq<Option<string>>, k1: int, k2: int)
    requires IsBestDecoding(decodings, k1) && IsBestDecoding(decodings, k2)
    ensures k1 == k2
  {
  }

  /** The decodings the loop compares: one per encoding, in order. */
  function Decodings(decode: (string, seq<Byte>) -> Option<string>, bytes: seq<Byte>): (d: seq<Option<string>>)
    ensures |d| == |Encodings|
  {
    seq(|Encodings|, i requires 0 <= i < |Encodings| => decode(Encodings[i], bytes))
  }

  /** The encoding loop: keep the decoding with the most readable characters,
      the first of them on a tie; None (the null return) when no decoding
      has any. */
  method ChooseDecoding(decode: (string, seq<Byte>) -> Option<string>, bytes: seq<Byte>)
    returns (best: Option<string>)
    ensures var decodings := Decodings(decode, bytes);
      best.None? <==> forall i :: 0 <= i < |decodings| && decodings[i].Some? ==>
                                   ReadableCount(decodings[i].value) == 0
    ensures best.Some? ==>
      exists k :: IsBestDecoding(Decodings(decode, bytes), k) && best.value == Decodings(decode, bytes)[k].value
  {
    ghost var decodings := Decodings(decode, bytes);
    var bestText := "";
    var maxReadableChars := 0;
    ghost var bestIndex := -1;
    for i := 0 to |Encodings|
      invariant maxReadableChars == 0 ==> bestText == "" && bestIndex == -1
      invariant maxReadableChars == 0 ==>
        forall j :: 0 <= j < i && decodings[j].Some? ==> ReadableCount(decodings[j].value) == 0
      invariant maxReadableChars > 0 ==>
        && 0 <= bestIndex < i && decodings[bestIndex] == Some(bestText)
        && ReadableCount(bestText) == maxReadableChars
        && (forall j :: 0 <= j < i && decodings[j].Some? ==> ReadableCount(decodings[j].value) <= maxReadableChars)
        && (forall j :: 0 <= j < bestIndex && decodings[j].Some? ==> ReadableCount(decodings[j].value) < maxReadableChars)
    {
      var decoded := decode(Encodings[i], bytes);
      assert decoded == decodings[i];
      if decoded.Some? {
        var decodedText := decoded.value;
        var readableChars := ReadableCount(decodedText);
        if readableChars > maxReadableChars {
          maxReadableChars := readableChars;
          bestText := decodedText;
          bestIndex := i;
        }
      }
    }
    if bestText == "" {
      best := None;
    } else {
      assert IsBestDecoding(decodings, bestIndex);
      best := Some(bestText);
    }
  }
}
