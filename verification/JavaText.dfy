/**
  Lines, columns and slices of a Java source text (Main.java of the ast-helper).

  A text is a sequence of 16-bit code units. Lines and columns count from 1 and ranges include both
  ends, as JavaParser reports them for a text whose lines end in LF.
 */
module JavaText {
  import opened Prelude

  type Unit = u: int | 0 <= u < 0x1_0000

  const LF: Unit := 10

  datatype Position = Position(line: int, column: int)

  // ------------------------------------------------------------------ position to offset

  /** The offset at which the line after `n` line feeds starts. */
  function LineStart(text: seq<Unit>, n: nat): (r: Option<nat>)
    ensures r.Some? ==> r.value <= |text|
  {
    if n == 0 then Some(0)
    else match LineStart(text, n - 1)
      case None => None
      case Some(start) =>
        match IndexOf(text, LF, start)
        case None => None
        case Some(nl) => Some(nl + 1)
  }

  /** None stands for the exception about a line that the file does not have. */
  function OffsetAt(text: seq<Unit>, p: Position): Option<int> {
    match LineStart(text, if p.line <= 1 then 0 else p.line - 1)
    case None => None
    case Some(start) => Some(start + p.column - 1)
  }

  lemma {:induction false} NoLaterLine(text: seq<Unit>, n: nat, m: nat)
    requires LineStart(text, n).None? && n <= m
    ensures LineStart(text, m).None?
  {
    if n < m {
      NoLaterLine(text, n, m - 1);
    }
  }

  method LineColToIndex(text: seq<Unit>, line: int, column: int) returns (r: Option<int>)
    ensures r == OffsetAt(text, Position(line, column))
  {
    var idx: nat := 0;
    var currentLine := 1;
    while currentLine < line
      invariant 1 <= currentLine && (currentLine <= line || currentLine == 1)
      invariant LineStart(text, currentLine - 1) == Some(idx)
      decreases line - currentLine
    {
      var nl := IndexOf(text, LF, idx);
      if nl.None? {
        NoLaterLine(text, currentLine, line - 1);
        return None;
      }
      idx := nl.value + 1;
      currentLine := currentLine + 1;
    }
    return Some(idx + (column - 1));
  }

  // ------------------------------------------------------------------ offset to position

  function CountLF(text: seq<Unit>, o: nat): nat
    requires o <= |text|
  {
    if o == 0 then 0 else CountLF(text, o - 1) + if text[o - 1] == LF then 1 else 0
  }

  /** The offset just behind the last line feed before `o`. */
  function StartOfLine(text: seq<Unit>, o: nat): (s: nat)
    requires o <= |text|
    ensures s <= o
  {
    if o == 0 then 0 else if text[o - 1] == LF then o else StartOfLine(text, o - 1)
  }

  function PositionOf(text: seq<Unit>, o: nat): Position
    requires o <= |text|
  {
    Position(1 + CountLF(text, o), 1 + o - StartOfLine(text, o))
  }

  lemma {:induction false} NoLFSinceStart(text: seq<Unit>, o: nat)
    requires o <= |text|
    ensures forall j | StartOfLine(text, o) <= j < o :: text[j] != LF
  {
    if o > 0 && text[o - 1] != LF {
      NoLFSinceStart(text, o - 1);
    }
  }

  lemma NextLine(text: seq<Unit>, n: nat, start: nat, nl: nat)
    requires LineStart(text, n) == Some(start) && start <= nl < |text|
    requires text[nl] == LF && forall j | start <= j < nl :: text[j] != LF
    ensures LineStart(text, n + 1) == Some(nl + 1)
  {
    assert IndexOf(text, LF, start) == Some(nl);
  }

  lemma {:induction false} LineStartIs(text: seq<Unit>, o: nat)
    requires o <= |text|
    ensures LineStart(text, CountLF(text, o)) == Some(StartOfLine(text, o))
  {
    if o > 0 {
      LineStartIs(text, o - 1);
      if text[o - 1] == LF {
        NoLFSinceStart(text, o - 1);
        NextLine(text, CountLF(text, o - 1), StartOfLine(text, o - 1), o - 1);
      }
    }
  }

  /** Converting a position to an offset inverts converting the offset to a position, everywhere. */
  lemma OffsetInvertsPosition(text: seq<Unit>, o: nat)
    requires o <= |text|
    ensures OffsetAt(text, PositionOf(text, o)) == Some(o)
  {
    LineStartIs(text, o);
  }

  ghost predicate Before(p: Position, q: Position) {
    p.line < q.line || (p.line == q.line && p.column < q.column)
  }

  lemma {:induction false} PositionsStepUp(text: seq<Unit>, o: nat, o': nat)
    requires o < o' <= |text|
    ensures Before(PositionOf(text, o), PositionOf(text, o'))
    decreases o' - o
  {
    if o + 1 < o' {
      PositionsStepUp(text, o, o' - 1);
    }
  }

  /** Offsets and positions are ordered alike. */
  lemma PositionsAreMonotone(text: seq<Unit>, o: nat, o': nat)
    requires o <= |text| && o' <= |text|
    ensures o < o' <==> Before(PositionOf(text, o), PositionOf(text, o'))
  {
    if o < o' {
      PositionsStepUp(text, o, o');
    } else if o' < o {
      PositionsStepUp(text, o', o);
    }
  }

  lemma {:induction false} LinesExist(text: seq<Unit>, o: nat, n: nat)
    requires o <= |text| && n <= CountLF(text, o)
    ensures LineStart(text, n).Some?
  {
    if o > 0 {
      if n <= CountLF(text, o - 1) {
        LinesExist(text, o - 1, n);
      } else {
        LineStartIs(text, o);
      }
    }
  }

  lemma {:induction false} CountBetween(text: seq<Unit>, a: nat, b: nat)
    requires a <= b <= |text| && forall j | a <= j < b :: text[j] != LF
    ensures CountLF(text, b) == CountLF(text, a)
  {
    if a < b {
      CountBetween(text, a, b - 1);
    }
  }

  lemma {:induction false} LineStartCounts(text: seq<Unit>, n: nat)
    requires LineStart(text, n).Some?
    ensures CountLF(text, LineStart(text, n).value) == n
  {
    if n > 0 {
      var start := LineStart(text, n - 1).value;
      var nl := IndexOf(text, LF, start).value;
      LineStartCounts(text, n - 1);
      CountBetween(text, start, nl);
    }
  }

  lemma {:induction false} CountGrows(text: seq<Unit>, a: nat, b: nat)
    requires a <= b <= |text|
    ensures CountLF(text, a) <= CountLF(text, b)
  {
    if a < b {
      CountGrows(text, a, b - 1);
    }
  }

  /** The conversion fails exactly on lines that the text does not have. */
  lemma FailsIffNoSuchLine(text: seq<Unit>, p: Position)
    ensures OffsetAt(text, p).None? <==> p.line > 1 + CountLF(text, |text|)
  {
    if p.line > 1 {
      if p.line - 1 <= CountLF(text, |text|) {
        LinesExist(text, |text|, p.line - 1);
      } else if OffsetAt(text, p).Some? {
        LineStartCounts(text, p.line - 1);
        CountGrows(text, LineStart(text, p.line - 1).value, |text|);
      }
    }
  }

  // ------------------------------------------------------------------ slices

  /** None stands for either exception: no such line, or indices out of range. */
  function SliceByRange(text: seq<Unit>, begin: Position, end: Position): Option<seq<Unit>> {
    match (OffsetAt(text, begin), OffsetAt(text, end))
    case (Some(start), Some(endInclusive)) =>
      if 0 <= start <= endInclusive + 1 <= |text| then Some(text[start..endInclusive + 1]) else None
    case _ => None
  }

  /** The signature ends one column before the region, but never left of column 1. */
  function SignatureEnd(regionBegin: Position): Position {
    Position(regionBegin.line, if regionBegin.column - 1 > 1 then regionBegin.column - 1 else 1)
  }

  lemma SliceOfOffsets(text: seq<Unit>, begin: Position, end: Position, o: nat, o': int)
    requires OffsetAt(text, begin) == Some(o) && OffsetAt(text, end) == Some(o') && o <= o' + 1 <= |text|
    ensures SliceByRange(text, begin, end) == Some(text[o..o' + 1])
  {
  }

  lemma SignatureEndsBefore(text: seq<Unit>, b: nat)
    requires b <= |text|
    ensures OffsetAt(text, SignatureEnd(PositionOf(text, b))) ==
      Some(if PositionOf(text, b).column > 1 then b - 1 else b)
  {
    LineStartIs(text, b);
  }

  lemma RegionSlice(text: seq<Unit>, b: nat, e: nat)
    requires b <= e < |text|
    ensures SliceByRange(text, PositionOf(text, b), PositionOf(text, e)) == Some(text[b..e + 1])
  {
    OffsetInvertsPosition(text, b);
    OffsetInvertsPosition(text, e);
    SliceOfOffsets(text, PositionOf(text, b), PositionOf(text, e), b, e);
  }

  /** Does the region start at the first column of its line? */
  predicate StartsLine(text: seq<Unit>, b: nat)
    requires b <= |text|
  {
    PositionOf(text, b).column == 1
  }

  lemma SignatureSlice(text: seq<Unit>, d: nat, b: nat)
    requires d <= b < |text|
    ensures SliceByRange(text, PositionOf(text, d), SignatureEnd(PositionOf(text, b)))
         == Some(if StartsLine(text, b) then text[d..b + 1] else text[d..b])
  {
    OffsetInvertsPosition(text, d);
    SignatureEndsBefore(text, b);
    SliceOfOffsets(text, PositionOf(text, d), SignatureEnd(PositionOf(text, b)), d,
      if StartsLine(text, b) then b else b - 1);
  }

  lemma Reassemble(text: seq<Unit>, d: nat, b: nat, e: nat)
    requires d <= b <= e < |text|
    ensures text[d..b] + text[b..e + 1] == text[d..e + 1]
    ensures text[d..b + 1] + text[b..e + 1][1..] == text[d..e + 1]
    ensures text[d..b + 1][b - d] == text[b..e + 1][0]
  {
  }

  /** Signature and region, laid side by side, are the declaration; when the region starts a line
      the two share its first character. */
  ghost predicate Contiguous(declaration: seq<Unit>, signature: seq<Unit>, region: seq<Unit>, shared: bool) {
    if shared then
      signature != [] && region != [] && signature[|signature| - 1] == region[0] &&
      signature + region[1..] == declaration
    else signature + region == declaration
  }

  /** A declaration from `d` whose region is b..e (both included) can be put together again from its
      two slices. */
  lemma SlicesAreContiguous(text: seq<Unit>, d: nat, b: nat, e: nat) returns (signature: seq<Unit>, region: seq<Unit>)
    requires d <= b <= e < |text|
    ensures SliceByRange(text, PositionOf(text, b), PositionOf(text, e)) == Some(region)
    ensures SliceByRange(text, PositionOf(text, d), SignatureEnd(PositionOf(text, b))) == Some(signature)
    ensures Contiguous(text[d..e + 1], signature, region, StartsLine(text, b)) && region == text[b..e + 1]
  {
    RegionSlice(text, b, e);
    SignatureSlice(text, d, b);
    region := text[b..e + 1];
    signature := if StartsLine(text, b) then text[d..b + 1] else text[d..b];
    Reassemble(text, d, b, e);
  }
}
