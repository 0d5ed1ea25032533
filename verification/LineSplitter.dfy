/** pkg/logforward splitLine: cutting an over-long line into chunks at character boundaries. */
module LineSplitter {
  import opened Utf8

  /** Moves the cut back while it would fall on a continuation byte. */
  function CutBack(line: Bytes, cut: nat): (k: nat)
    requires cut < |line|
    ensures k <= cut
    ensures forall i :: k < i <= cut ==> !RuneStart(line[i])
    ensures k > 0 ==> RuneStart(line[k])
  {
    if cut > 0 && !RuneStart(line[cut]) then CutBack(line, cut - 1) else cut
  }

  function CutPoint(line: Bytes, maxBytes: int): (k: nat)
    requires 0 < maxBytes < |line|
    ensures 0 < k <= maxBytes
  {
    var k := CutBack(line, maxBytes);
    if k == 0 then maxBytes else k
  }

  function Chunks(line: Bytes, maxBytes: int): (chunks: seq<Bytes>)
    ensures |chunks| > 0
    decreases |line|
  {
    if maxBytes <= 0 || |line| <= maxBytes then [line]
    else
      var k := CutPoint(line, maxBytes);
      [line[..k]] + Chunks(line[k..], maxBytes)
  }

  function Concat(chunks: seq<Bytes>): Bytes {
    if chunks == [] then [] else chunks[0] + Concat(chunks[1..])
  }

  /** The inner loop of splitLine, with its fallback to a cut inside a character. */
  method FindCut(line: Bytes, maxBytes: int) returns (cut: nat)
    requires 0 < maxBytes < |line|
    ensures cut == CutPoint(line, maxBytes)
    ensures if exists i :: 0 < i <= maxBytes && RuneStart(line[i])
            then 0 < cut <= maxBytes && RuneStart(line[cut])
                 && forall i :: cut < i <= maxBytes ==> !RuneStart(line[i])
            else cut == maxBytes
  {
    cut := maxBytes;
    while cut > 0 && !RuneStart(line[cut])
      invariant 0 <= cut <= maxBytes
      invariant CutBack(line, cut) == CutBack(line, maxBytes)
    {
      cut := cut - 1;
    }
    if cut == 0 {
      cut := maxBytes;
    }
  }

  /** One more chunk taken off the rest. */
  lemma {:induction false} ChunksStep(chunks: seq<Bytes>, rest: Bytes, maxBytes: int)
    requires 0 < maxBytes < |rest|
    ensures var cut := CutPoint(rest, maxBytes);
            chunks + Chunks(rest, maxBytes) == (chunks + [rest[..cut]]) + Chunks(rest[cut..], maxBytes)
  {
    var cut := CutPoint(rest, maxBytes);
    assert Chunks(rest, maxBytes) == [rest[..cut]] + Chunks(rest[cut..], maxBytes);
  }

  method SplitLine(line: Bytes, maxBytes: int) returns (chunks: seq<Bytes>)
    ensures chunks == Chunks(line, maxBytes)
    ensures Concat(chunks) == line
    ensures 0 < maxBytes ==> forall i :: 0 <= i < |chunks| ==> |chunks[i]| <= maxBytes
  {
    ChunksConcat(line, maxBytes);
    forall i | 0 <= i < |Chunks(line, maxBytes)| && 0 < maxBytes ensures |Chunks(line, maxBytes)[i]| <= maxBytes {
      ChunksBounded(line, maxBytes, i);
    }
    if maxBytes <= 0 || |line| <= maxBytes {
      return [line];
    }
    chunks := [];
    var rest := line;
    while |rest| > maxBytes
      invariant rest != []
      invariant chunks + Chunks(rest, maxBytes) == Chunks(line, maxBytes)
      decreases |rest|
    {
      var cut := FindCut(rest, maxBytes);
      ChunksStep(chunks, rest, maxBytes);
      chunks, rest := chunks + [rest[..cut]], rest[cut..];
    }
    if rest != [] {
      chunks := chunks + [rest];
    }
  }

  /** A line is left whole exactly when it fits, or when there is no limit. */
  lemma {:induction false} OneChunkIff(line: Bytes, maxBytes: int)
    ensures |Chunks(line, maxBytes)| == 1 <==> maxBytes <= 0 || |line| <= maxBytes
    ensures maxBytes <= 0 || |line| <= maxBytes ==> Chunks(line, maxBytes) == [line]
  {
  }

  /** Nothing is lost, added or reordered. */
  lemma {:induction false} ChunksConcat(line: Bytes, maxBytes: int)
    ensures Concat(Chunks(line, maxBytes)) == line
    decreases |line|
  {
    var chunks := Chunks(line, maxBytes);
    if maxBytes <= 0 || |line| <= maxBytes {
      assert chunks[1..] == [];
    } else {
      var k := CutPoint(line, maxBytes);
      ChunksConcat(line[k..], maxBytes);
      assert chunks[1..] == Chunks(line[k..], maxBytes);
      assert chunks[0] == line[..k];
    }
  }

  /** Every chunk respects the limit, and none is wasted. */
  lemma {:induction false} ChunksBounded(line: Bytes, maxBytes: int, i: nat)
    requires i < |Chunks(line, maxBytes)|
    ensures 0 < maxBytes ==> |Chunks(line, maxBytes)[i]| <= maxBytes
    ensures line != [] ==> Chunks(line, maxBytes)[i] != []
    decreases |line|
  {
    if 0 < maxBytes < |line| && i > 0 {
      ChunksBounded(line[CutPoint(line, maxBytes)..], maxBytes, i - 1);
    }
  }

  lemma {:induction false} ChunksPartition(line: Bytes, maxBytes: int)
    ensures Concat(Chunks(line, maxBytes)) == line
    ensures 0 < maxBytes ==> forall c :: c in Chunks(line, maxBytes) ==> |c| <= maxBytes
    ensures line != [] ==> forall c :: c in Chunks(line, maxBytes) ==> c != []
  {
    ChunksConcat(line, maxBytes);
    var chunks := Chunks(line, maxBytes);
    forall c | c in chunks ensures (0 < maxBytes ==> |c| <= maxBytes) && (line != [] ==> c != []) {
      var i :| 0 <= i < |chunks| && chunks[i] == c;
      ChunksBounded(line, maxBytes, i);
    }
  }

  /** For valid text whose first character fits, the cut falls on a character boundary. */
  lemma {:induction false} CutIsBoundary(line: Bytes, maxBytes: int)
    requires Valid(line) && 0 < maxBytes < |line| && CharLen(line) <= maxBytes
    ensures var k := CutPoint(line, maxBytes);
            Valid(line[..k]) && Valid(line[k..]) && k + CharLen(line[k..]) > maxBytes
  {
    var n := CharLen(line);
    NextStarts(line);
    var k := CutPoint(line, maxBytes);
    assert k == CutBack(line, maxBytes) && n <= k;
    CutAtStart(line, k);
    NextStarts(line[k..]);
    var next := CharLen(line[k..]);
    assert k + next < |line| ==> RuneStart(line[k + next]);
  }

  /** In valid text a character is followed by the start of another, or by nothing. */
  lemma {:induction false} NextStarts(s: Bytes)
    requires Valid(s) && s != []
    ensures 0 < CharLen(s) <= |s| && (CharLen(s) < |s| ==> RuneStart(s[CharLen(s)]))
  {
    var rest := s[CharLen(s)..];
    if rest != [] {
      assert rest[0] == s[CharLen(s)];
    }
  }

  /**
   * Exactly when every character of the line fits the limit does each chunk stay valid UTF-8.
   * A four-byte character and a limit of three is the failing family.
   */
  lemma {:induction false} ChunksValidIff(line: Bytes, maxBytes: int)
    requires Valid(line) && 0 < maxBytes
    ensures (forall c :: c in Chunks(line, maxBytes) ==> Valid(c)) <==> CharsFit(line, maxBytes)
  {
    ChunksPartition(line, maxBytes);
    if CharsFit(line, maxBytes) {
      FittingChunksValid(line, maxBytes);
    }
    if forall c :: c in Chunks(line, maxBytes) ==> Valid(c) {
      ConcatFits(Chunks(line, maxBytes), maxBytes);
    }
  }

  lemma {:induction false} FittingChunksValid(line: Bytes, maxBytes: int)
    requires Valid(line) && CharsFit(line, maxBytes) && 0 < maxBytes
    ensures forall c :: c in Chunks(line, maxBytes) ==> Valid(c)
    decreases |line|
  {
    if |line| > maxBytes {
      var k := CutPoint(line, maxBytes);
      CutIsBoundary(line, maxBytes);
      assert line[..k] + line[k..] == line;
      ValidConcat(line[..k], line[k..]);
      FittingChunksValid(line[k..], maxBytes);
      assert Chunks(line, maxBytes) == [line[..k]] + Chunks(line[k..], maxBytes);
    }
  }

  lemma {:induction false} ConcatFits(chunks: seq<Bytes>, limit: int)
    requires forall c :: c in chunks ==> Valid(c) && |c| <= limit
    ensures Valid(Concat(chunks)) && CharsFit(Concat(chunks), limit)
  {
    if chunks != [] {
      ShortTextFits(chunks[0], limit);
      ConcatFits(chunks[1..], limit);
      ValidConcat(chunks[0], Concat(chunks[1..]));
    }
  }

  /** A limit of four bytes fits every character, so it keeps every valid line valid. */
  lemma {:induction false} FourBytesFit(line: Bytes, maxBytes: int)
    requires Valid(line) && 4 <= maxBytes
    ensures CharsFit(line, maxBytes)
    decreases |line|
  {
    if line != [] {
      FourBytesFit(line[CharLen(line)..], maxBytes);
    }
  }

  /** The first two chunks of valid text. */
  lemma {:induction false} HeadIsGreedy(line: Bytes, maxBytes: int)
    requires Valid(line) && 4 <= maxBytes < |line|
    ensures var k := CutPoint(line, maxBytes);
            var next := Chunks(line[k..], maxBytes)[0];
            && Valid(line[..k]) && Valid(line[k..]) && Valid(next)
            && k + CharLen(next) > maxBytes && k >= maxBytes - 3
  {
    FourBytesFit(line, maxBytes);
    CutIsBoundary(line, maxBytes);
    var rest := line[CutPoint(line, maxBytes)..];
    FourBytesFit(rest, maxBytes);
    HeadOfRest(rest, maxBytes);
    FittingChunksValid(rest, maxBytes);
    assert Chunks(rest, maxBytes)[0] in Chunks(rest, maxBytes);
  }

  /**
   * The split is greedy: a chunk could not have taken one more character of what follows,
   * so every chunk but the last uses all of the limit except at most three bytes.
   */
  lemma {:induction false} ChunksGreedy(line: Bytes, maxBytes: int, i: nat)
    requires Valid(line) && 4 <= maxBytes && i + 1 < |Chunks(line, maxBytes)|
    ensures var chunks := Chunks(line, maxBytes);
            && Valid(chunks[i]) && Valid(chunks[i + 1])
            && |chunks[i]| + CharLen(chunks[i + 1]) > maxBytes
            && |chunks[i]| >= maxBytes - 3
    decreases |line|
  {
    var chunks := Chunks(line, maxBytes);
    var k := CutPoint(line, maxBytes);
    HeadIsGreedy(line, maxBytes);
    assert chunks == [line[..k]] + Chunks(line[k..], maxBytes);
    if i > 0 {
      ChunksGreedy(line[k..], maxBytes, i - 1);
    }
  }

  /** The first chunk of a text starts with the first character of the text. */
  lemma {:induction false} HeadOfRest(line: Bytes, maxBytes: int)
    requires Valid(line) && line != [] && CharsFit(line, maxBytes)
    ensures CharLen(Chunks(line, maxBytes)[0]) == CharLen(line)
  {
    if 0 < maxBytes < |line| {
      var k := CutPoint(line, maxBytes);
      CutIsBoundary(line, maxBytes);
      CharLenLocal(line[..k], line);
    }
  }
}
