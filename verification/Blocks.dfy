/** The two Markdown block scanners of the PDF builders. They differ in what ends a paragraph and
    in how an unclosed code fence leaves the line counter; the first always terminates, the second
    exactly when no line outside a block begins with `\[` without being `\[` or starting a table. */
module Blocks {
  import opened Markdown
  import opened Sequences
  import opened Whitespace
  import opened Wrappers

  // The bilingual builder and the English paper builder.
  datatype Scanner = Bilingual | Paper

  datatype Kind = Code | Formula | Table | Heading | Quotation | BulletList | NumberList | Paragraph

  // The lines from `first` up to `next` form the block; `texts` is what the scanner collects.
  datatype Block = Block(kind: Kind, first: nat, next: nat, texts: seq<string>)

  predicate IsBlank(line: Line) {
    Strip(line) == ""
  }

  // A line that begins like a formula but is not just the opening bracket.
  predicate HalfFormula(s: string) {
    "\\[" <= s && s != "\\["
  }

  // What makes the inner loop of a block of the given kind stop at line k.
  predicate Stops(sc: Scanner, digit: char -> bool, kind: Kind, lines: seq<Line>, k: nat)
    requires k < |lines|
  {
    var s := Strip(lines[k]);
    match kind
    case Code => IsFence(s)
    case Formula => s == "\\]"
    case Table => !IsTableRow(lines[k])
    case Heading => true
    case Quotation => !(">" <= s)
    case BulletList => !IsBullet(s)
    case NumberList => !IsNumbered(digit, s)
    case Paragraph =>
      s == "" || IsFence(s) || IsTableStart(lines, k) ||
      (match sc
       case Bilingual => s == "\\[" || HeadingMark(s) || ">" <= s || BulletMark(s) || NumberMark(digit, s)
       case Paper => "\\[" <= s || IsHeading(s) || IsBullet(s) || IsNumbered(digit, s))
  }

  // The first line from k on at which that loop stops, or the end.
  function RunEnd(sc: Scanner, digit: char -> bool, kind: Kind, lines: seq<Line>, k: nat): (j: nat)
    requires k <= |lines|
    ensures k <= j <= |lines|
    decreases |lines| - k
  {
    if k < |lines| && !Stops(sc, digit, kind, lines, k) then RunEnd(sc, digit, kind, lines, k + 1) else k
  }

  // The first branch of the outer loop that takes the (non-blank) line.
  function KindAt(digit: char -> bool, lines: seq<Line>, i: nat): (kind: Kind)
    requires i < |lines|
    ensures kind.Table? ==> i + 1 < |lines|
  {
    var s := Strip(lines[i]);
    if IsFence(s) then Code
    else if s == "\\[" then Formula
    else if IsTableStart(lines, i) then Table
    else if IsHeading(s) then Heading
    else if ">" <= s then Quotation
    else if IsBullet(s) then BulletList
    else if IsNumbered(digit, s) then NumberList
    else Paragraph
  }

  // Where the inner loop begins, ...
  function RunStart(kind: Kind, i: nat): nat {
    match kind
    case Code => i + 1
    case Formula => i + 1
    case Heading => i + 1
    case Table => i + 2
    case _ => i
  }

  // ... and where the line counter stands after the block. Past an unclosed fence the bilingual
  // scanner counts one line too many.
  function NextAfter(sc: Scanner, digit: char -> bool, lines: seq<Line>, i: nat): (j: nat)
    requires i < |lines|
    ensures i <= j <= |lines| + 1
  {
    var kind := KindAt(digit, lines, i);
    var e := RunEnd(sc, digit, kind, lines, RunStart(kind, i));
    match kind
    case Code => if sc.Bilingual? || e < |lines| then e + 1 else e
    case Formula => if e < |lines| then e + 1 else e
    case _ => e
  }

  function StripQuote(s: string): string {
    if ">" <= s then StripQuote(s[1..]) else s
  }

  // What a line contributes to the text of its block.
  function Piece(digit: char -> bool, kind: Kind, line: Line): string {
    var s := Strip(line);
    match kind
    case Quotation => Strip(StripQuote(s))
    case BulletList => if s == "" then "" else After(s, 1)
    case NumberList => if Leading(digit, s) < |s| then After(s, Leading(digit, s) + 1) else ""
    case Paragraph => s
    case Heading => After(s, Hashes(s))
    case _ => line
  }

  function Pieces(digit: char -> bool, kind: Kind, lines: seq<Line>): seq<string> {
    if lines == [] then [] else [Piece(digit, kind, lines[0])] + Pieces(digit, kind, lines[1..])
  }

  // Code and formulas leave out their delimiters.
  function BlockAt(sc: Scanner, digit: char -> bool, lines: seq<Line>, i: nat): Block
    requires i < |lines|
  {
    hide KindAt, RunEnd, NextAfter, Pieces;
    var kind := KindAt(digit, lines, i);
    var from := if kind.Code? || kind.Formula? then i + 1 else i;
    var to := RunEnd(sc, digit, kind, lines, RunStart(kind, i));
    Block(kind, i, NextAfter(sc, digit, lines, i), Pieces(digit, kind, lines[from..to]))
  }

  // One turn of the outer loop.
  function Advance(sc: Scanner, digit: char -> bool, lines: seq<Line>, i: nat): nat
    requires i < |lines|
  {
    if IsBlank(lines[i]) then i + 1 else NextAfter(sc, digit, lines, i)
  }

  // ---------- progress ----------

  // A turn fails to advance only in a paragraph that stops at its own first line.
  lemma StuckIsParagraph(sc: Scanner, digit: char -> bool, lines: seq<Line>, i: nat)
    requires i < |lines|
    ensures Advance(sc, digit, lines, i) > i <==>
            IsBlank(lines[i]) || !KindAt(digit, lines, i).Paragraph? || !Stops(sc, digit, Paragraph, lines, i)
  {
    hide IsFence, IsTableStart, IsHeading, IsBullet, IsNumbered, Strip, IsTableRow;
  }

  lemma ParagraphStop(sc: Scanner, digit: char -> bool, lines: seq<Line>, i: nat)
    requires i < |lines| && !IsBlank(lines[i]) && KindAt(digit, lines, i).Paragraph?
    ensures Stops(sc, digit, Paragraph, lines, i) <==> sc.Paper? && "\\[" <= Strip(lines[i])
  {
    MarksNeedNoText(digit, Strip(lines[i]));
    hide IsFence, IsTableStart, IsHeading, IsBullet, IsNumbered, Strip, HeadingMark, BulletMark, NumberMark;
  }

  // The condition on a line for the scanner to get past it.
  predicate Passable(sc: Scanner, lines: seq<Line>, i: nat)
    requires i < |lines|
  {
    sc.Bilingual? || !HalfFormula(Strip(lines[i])) || IsTableStart(lines, i)
  }

  lemma HalfFormulaIsParagraph(digit: char -> bool, lines: seq<Line>, i: nat)
    requires i < |lines| && "\\[" <= Strip(lines[i])
    ensures !IsBlank(lines[i])
    ensures KindAt(digit, lines, i).Paragraph? <==>
            HalfFormula(Strip(lines[i])) && !IsTableStart(lines, i) && !IsNumbered(digit, Strip(lines[i]))
  {
    var s := Strip(lines[i]);
    assert s[0] == '\\';
    hide IsTableStart, IsNumbered, Strip;
  }

  // The scanner advances over line i exactly when the line is passable (a backslash is no digit).
  lemma AdvancesExactlyWhenPassable(sc: Scanner, digit: char -> bool, lines: seq<Line>, i: nat)
    requires i < |lines| && !digit('\\')
    ensures Advance(sc, digit, lines, i) > i <==> Passable(sc, lines, i)
  {
    StuckIsParagraph(sc, digit, lines, i);
    var s := Strip(lines[i]);
    if "\\[" <= s {
      HalfFormulaIsParagraph(digit, lines, i);
      assert Leading(digit, s) == 0;
    }
    if !IsBlank(lines[i]) && KindAt(digit, lines, i).Paragraph? {
      ParagraphStop(sc, digit, lines, i);
    }
    hide KindAt, Stops, Advance, IsTableStart, Strip;
  }

  // ---------- whole runs ----------

  // The line counter after n turns from the top.
  function Counter(sc: Scanner, digit: char -> bool, lines: seq<Line>, n: nat): nat {
    if n == 0 then 0 else
      var i := Counter(sc, digit, lines, n - 1);
      if i < |lines| then Advance(sc, digit, lines, i) else i
  }

  // Every line that the scanner looks at from line i on, outside the blocks it skips, is passable.
  predicate AllPassable(sc: Scanner, digit: char -> bool, lines: seq<Line>, i: nat)
    requires !digit('\\')
    decreases |lines| - i
  {
    i >= |lines| ||
    (Passable(sc, lines, i) &&
     (AdvancesExactlyWhenPassable(sc, digit, lines, i);
      AllPassable(sc, digit, lines, Advance(sc, digit, lines, i))))
  }

  lemma PassableStep(sc: Scanner, digit: char -> bool, lines: seq<Line>, i: nat)
    requires !digit('\\') && i < |lines|
    ensures var j := Advance(sc, digit, lines, i);
            AllPassable(sc, digit, lines, i) <==> j > i && AllPassable(sc, digit, lines, j)
    ensures Advance(sc, digit, lines, i) >= i
  {
    AdvancesExactlyWhenPassable(sc, digit, lines, i);
    StaysInPlace(sc, digit, lines, i);
    hide Advance, Passable;
  }

  lemma StaysInPlace(sc: Scanner, digit: char -> bool, lines: seq<Line>, i: nat)
    requires i < |lines|
    ensures Advance(sc, digit, lines, i) >= i
  {
  }

  lemma {:induction false} PassableRunEnds(sc: Scanner, digit: char -> bool, lines: seq<Line>, n: nat) returns (m: nat)
    requires !digit('\\') && AllPassable(sc, digit, lines, Counter(sc, digit, lines, n))
    ensures Counter(sc, digit, lines, m) >= |lines|
    decreases |lines| - Counter(sc, digit, lines, n)
  {
    hide Advance, AllPassable;
    var i := Counter(sc, digit, lines, n);
    if i < |lines| {
      PassableStep(sc, digit, lines, i);
      assert Counter(sc, digit, lines, n + 1) == Advance(sc, digit, lines, i);
      hide Counter;
      m := PassableRunEnds(sc, digit, lines, n + 1);
    } else {
      m := n;
    }
  }

  lemma {:induction false} ImpassableRunHangs(sc: Scanner, digit: char -> bool, lines: seq<Line>, n: nat)
    requires !digit('\\') && !AllPassable(sc, digit, lines, 0)
    ensures Counter(sc, digit, lines, n) < |lines|
    ensures !AllPassable(sc, digit, lines, Counter(sc, digit, lines, n))
  {
    hide Advance, AllPassable;
    NothingLeftPasses(sc, digit, lines, Counter(sc, digit, lines, n));
    if n > 0 {
      var i := Counter(sc, digit, lines, n - 1);
      ImpassableRunHangs(sc, digit, lines, n - 1);
      ImpassableStaysImpassable(sc, digit, lines, i);
      assert Counter(sc, digit, lines, n) == Advance(sc, digit, lines, i);
    }
  }

  lemma NothingLeftPasses(sc: Scanner, digit: char -> bool, lines: seq<Line>, i: nat)
    requires !digit('\\')
    ensures i >= |lines| ==> AllPassable(sc, digit, lines, i)
  {
  }

  // A stuck scanner stays where it is; one that is not stuck yet is stuck later.
  lemma ImpassableStaysImpassable(sc: Scanner, digit: char -> bool, lines: seq<Line>, i: nat)
    requires !digit('\\') && i < |lines| && !AllPassable(sc, digit, lines, i)
    ensures !AllPassable(sc, digit, lines, Advance(sc, digit, lines, i))
  {
    hide Advance, AllPassable;
    PassableStep(sc, digit, lines, i);
  }

  // The scanner reaches the end exactly when no line it stops at is impassable.
  lemma TerminatesExactlyWhenPassable(sc: Scanner, digit: char -> bool, lines: seq<Line>)
    requires !digit('\\')
    ensures (exists n: nat :: Counter(sc, digit, lines, n) >= |lines|) <==> AllPassable(sc, digit, lines, 0)
  {
    if AllPassable(sc, digit, lines, 0) {
      var m := PassableRunEnds(sc, digit, lines, 0);
    } else {
      forall n: nat
        ensures Counter(sc, digit, lines, n) < |lines|
      {
        ImpassableRunHangs(sc, digit, lines, n);
      }
    }
  }

  // So the bilingual scanner always ends, and the paper scanner on every text in which no line
  // begins like a formula without being its bracket.
  lemma {:induction false} PassableTexts(sc: Scanner, digit: char -> bool, lines: seq<Line>, i: nat)
    requires !digit('\\')
    requires sc.Bilingual? || forall k :: 0 <= k < |lines| ==> !HalfFormula(Strip(lines[k]))
    ensures AllPassable(sc, digit, lines, i)
    decreases |lines| - i
  {
    if i < |lines| {
      AdvancesExactlyWhenPassable(sc, digit, lines, i);
      hide Advance, HalfFormula, Strip;
      PassableTexts(sc, digit, lines, Advance(sc, digit, lines, i));
    }
  }

  // A reading of the text line by line, for the paper scanner: inside a block, every line up to the one that
  // stops it is skipped; a line outside must not be a half formula, unless it starts a table.
  predicate Clear(digit: char -> bool, lines: seq<Line>, i: nat, within: Option<Kind>)
    decreases |lines| - i, if within.Some? then 1 else 0
  {
    if i >= |lines| then true
    else if within.Some? then
      if !Stops(Paper, digit, within.value, lines, i) then Clear(digit, lines, i + 1, within)
      else if within.value.Code? || within.value.Formula? then Clear(digit, lines, i + 1, None)
      else Clear(digit, lines, i, None)
    else if IsBlank(lines[i]) then Clear(digit, lines, i + 1, None)
    else
      var kind := KindAt(digit, lines, i);
      Passable(Paper, lines, i) && Clear(digit, lines, Opened(kind, i), Some(kind))
  }

  lemma {:induction false} ClearAfterRun(digit: char -> bool, lines: seq<Line>, i: nat, kind: Kind)
    requires i <= |lines|
    ensures var e := RunEnd(Paper, digit, kind, lines, i);
            Clear(digit, lines, i, Some(kind)) <==>
            Clear(digit, lines, if (kind.Code? || kind.Formula?) && e < |lines| then e + 1 else e, None)
    decreases |lines| - i
  {
    hide Stops, KindAt, IsBlank, Passable;
    if i < |lines| && !Stops(Paper, digit, kind, lines, i) {
      ClearAfterRun(digit, lines, i + 1, kind);
    }
  }

  // A quotation or list does not stop at its own first line, nor does a paragraph that begins at a passable one.
  lemma FirstLineStays(digit: char -> bool, lines: seq<Line>, i: nat)
    requires i < |lines| && !digit('\\') && !IsBlank(lines[i]) && Passable(Paper, lines, i)
    ensures var kind := KindAt(digit, lines, i);
            && RunStart(kind, i) <= |lines|
            && (RunStart(kind, i) == i ==> !Stops(Paper, digit, kind, lines, i))
  {
    AdvancesExactlyWhenPassable(Paper, digit, lines, i);
    StuckIsParagraph(Paper, digit, lines, i);
    hide Advance, Passable, IsFence, IsTableStart, IsHeading, IsBullet, IsNumbered, Strip, IsTableRow;
  }

  // The line after the opening lines of a block.
  function Opened(kind: Kind, i: nat): nat {
    if kind.Table? then i + 2 else i + 1
  }

  lemma AdvanceIsRun(digit: char -> bool, lines: seq<Line>, i: nat)
    requires i < |lines| && !digit('\\') && !IsBlank(lines[i]) && Passable(Paper, lines, i)
    ensures var kind := KindAt(digit, lines, i);
            && Opened(kind, i) <= |lines|
            && var e := RunEnd(Paper, digit, kind, lines, Opened(kind, i));
               Advance(Paper, digit, lines, i) == if (kind.Code? || kind.Formula?) && e < |lines| then e + 1 else e
  {
    var kind := KindAt(digit, lines, i);
    FirstLineStays(digit, lines, i);
    hide Stops, KindAt, Passable, RunEnd, Strip;
    if RunStart(kind, i) == i {
      RunStep(digit, lines, i, kind);
    }
  }

  lemma RunStep(digit: char -> bool, lines: seq<Line>, i: nat, kind: Kind)
    requires i < |lines| && !Stops(Paper, digit, kind, lines, i)
    ensures RunEnd(Paper, digit, kind, lines, i) == RunEnd(Paper, digit, kind, lines, i + 1)
  {
    hide Stops;
  }

  lemma ClearOutside(digit: char -> bool, lines: seq<Line>, i: nat)
    requires i < |lines|
    ensures Clear(digit, lines, i, None) ==
            if IsBlank(lines[i]) then Clear(digit, lines, i + 1, None)
            else Passable(Paper, lines, i)
                 && Clear(digit, lines, Opened(KindAt(digit, lines, i), i), Some(KindAt(digit, lines, i)))
  {
    hide Stops, KindAt, Passable, IsBlank, Opened;
  }

  lemma AdvanceBlank(digit: char -> bool, lines: seq<Line>, i: nat)
    requires i < |lines| && IsBlank(lines[i])
    ensures Advance(Paper, digit, lines, i) == i + 1
  {
  }

  lemma ClearTurn(digit: char -> bool, lines: seq<Line>, i: nat)
    requires i < |lines| && !digit('\\') && Passable(Paper, lines, i)
    ensures Clear(digit, lines, i, None) <==> Clear(digit, lines, Advance(Paper, digit, lines, i), None)
  {
    hide Stops, KindAt, Passable, RunEnd, Clear, IsBlank, Advance, Opened;
    ClearOutside(digit, lines, i);
    if IsBlank(lines[i]) {
      AdvanceBlank(digit, lines, i);
    } else {
      AdvanceIsRun(digit, lines, i);
      var kind := KindAt(digit, lines, i);
      ClearAfterRun(digit, lines, Opened(kind, i), kind);
    }
  }

  // The paper scanner ends exactly on the texts that read clear.
  lemma {:induction false} PassableWhenClear(digit: char -> bool, lines: seq<Line>, i: nat)
    requires !digit('\\')
    ensures AllPassable(Paper, digit, lines, i) <==> Clear(digit, lines, i, None)
    decreases |lines| - i
  {
    if i < |lines| {
      PassableStep(Paper, digit, lines, i);
      AdvancesExactlyWhenPassable(Paper, digit, lines, i);
      if Passable(Paper, lines, i) {
        ClearTurn(digit, lines, i);
        hide Advance, Passable, AllPassable, Clear;
        PassableWhenClear(digit, lines, Advance(Paper, digit, lines, i));
      } else {
        BlankIsPassable(lines, i);
        hide Advance, AllPassable, KindAt, IsTableStart;
      }
    }
  }

  lemma BlankIsPassable(lines: seq<Line>, i: nat)
    requires i < |lines|
    ensures IsBlank(lines[i]) ==> Passable(Paper, lines, i)
  {
  }

  lemma PaperEndsExactlyWhenClear(digit: char -> bool, lines: seq<Line>)
    requires !digit('\\')
    ensures (exists n: nat :: Counter(Paper, digit, lines, n) >= |lines|) <==> Clear(digit, lines, 0, None)
  {
    TerminatesExactlyWhenPassable(Paper, digit, lines);
    PassableWhenClear(digit, lines, 0);
  }

  // One line is enough to hang the paper scanner.
  lemma PaperScannerCanHang(digit: char -> bool, n: nat)
    requires !digit('\\')
    ensures Counter(Paper, digit, ["\\[x"], n) < 1
  {
    hide Counter;
    assert !IsPySpace('\\') && !IsPySpace('x');
    StripKeeps("\\[x");
    HalfFormulaFirst(digit, ["\\[x"]);
    ImpassableRunHangs(Paper, digit, ["\\[x"], n);
  }

  lemma HalfFormulaFirst(digit: char -> bool, lines: seq<Line>)
    requires !digit('\\') && |lines| == 1 && HalfFormula(Strip(lines[0]))
    ensures !AllPassable(Paper, digit, lines, 0)
  {
    hide Strip, HalfFormula, Advance, IsTableSeparator;
  }

  // ---------- the blocks ----------

  function BlocksFrom(sc: Scanner, digit: char -> bool, lines: seq<Line>, i: nat): seq<Block>
    requires !digit('\\') && AllPassable(sc, digit, lines, i)
    decreases |lines| - i
  {
    if i >= |lines| then [] else
      AdvancesExactlyWhenPassable(sc, digit, lines, i);
      (if IsBlank(lines[i]) then [] else [BlockAt(sc, digit, lines, i)]) +
      BlocksFrom(sc, digit, lines, Advance(sc, digit, lines, i))
  }

  predicate Within(b: Block, k: nat) {
    b.first <= k < b.next
  }

  // In order, without overlap, none empty, none beginning at a blank line.
  predicate InOrder(lines: seq<Line>, blocks: seq<Block>, i: nat) {
    blocks == [] ||
    (i <= blocks[0].first < blocks[0].next && blocks[0].first < |lines| && !IsBlank(lines[blocks[0].first]) &&
     InOrder(lines, blocks[1..], blocks[0].next))
  }

  lemma {:induction false} OrderedApart(lines: seq<Line>, blocks: seq<Block>, i: nat, p: nat, q: nat)
    requires InOrder(lines, blocks, i) && p <= q < |blocks|
    ensures i <= blocks[p].first && (p < q ==> blocks[p].next <= blocks[q].first)
  {
    hide IsBlank;
    if p > 0 {
      OrderedApart(lines, blocks[1..], blocks[0].next, p - 1, q - 1);
    } else if q > 0 {
      OrderedApart(lines, blocks[1..], blocks[0].next, q - 1, q - 1);
    }
  }

  // The list of blocks, one turn at a time.
  lemma BlocksStep(sc: Scanner, digit: char -> bool, lines: seq<Line>, i: nat) returns (turn: seq<Block>, j: nat)
    requires !digit('\\') && AllPassable(sc, digit, lines, i) && i < |lines|
    ensures j > i && AllPassable(sc, digit, lines, j)
    ensures BlocksFrom(sc, digit, lines, i) == turn + BlocksFrom(sc, digit, lines, j)
    ensures if IsBlank(lines[i]) then turn == [] && j == i + 1
            else turn == [BlockAt(sc, digit, lines, i)] && turn[0].first == i && turn[0].next == j
  {
    AdvancesExactlyWhenPassable(sc, digit, lines, i);
    j := Advance(sc, digit, lines, i);
    turn := if IsBlank(lines[i]) then [] else [BlockAt(sc, digit, lines, i)];
    hide IsBlank, Passable, NextAfter;
  }

  lemma {:induction false} BlocksInOrder(sc: Scanner, digit: char -> bool, lines: seq<Line>, i: nat)
    requires !digit('\\') && AllPassable(sc, digit, lines, i)
    ensures InOrder(lines, BlocksFrom(sc, digit, lines, i), i)
    decreases |lines| - i
  {
    hide IsBlank, AllPassable, BlockAt;
    if i < |lines| {
      var turn, j := BlocksStep(sc, digit, lines, i);
      hide BlocksFrom;
      BlocksInOrder(sc, digit, lines, j);
      OrderAfterTurn(lines, turn, BlocksFrom(sc, digit, lines, j), i, j);
    }
  }

  lemma OrderAfterTurn(lines: seq<Line>, turn: seq<Block>, rest: seq<Block>, i: nat, j: nat)
    requires i < |lines| && j > i && InOrder(lines, rest, j)
    requires if IsBlank(lines[i]) then turn == [] else |turn| == 1 && turn[0].first == i && turn[0].next == j
    ensures InOrder(lines, turn + rest, i)
  {
    hide IsBlank;
    if turn == [] {
      assert turn + rest == rest;
    } else {
      assert (turn + rest)[1..] == rest;
    }
  }

  // Every non-blank line is in a block ...
  lemma {:induction false} LineIsCovered(sc: Scanner, digit: char -> bool, lines: seq<Line>, i: nat, k: nat)
    returns (p: nat)
    requires !digit('\\') && AllPassable(sc, digit, lines, i) && i <= k < |lines| && !IsBlank(lines[k])
    ensures p < |BlocksFrom(sc, digit, lines, i)| && Within(BlocksFrom(sc, digit, lines, i)[p], k)
    decreases |lines| - i
  {
    hide IsBlank, AllPassable, BlocksFrom, BlockAt;
    var turn, j := BlocksStep(sc, digit, lines, i);
    if k < j {
      p := 0;
    } else {
      p := LineIsCovered(sc, digit, lines, j, k);
      p := p + |turn|;
    }
  }

  // ... and in one only.
  lemma EachLineInOneBlock(sc: Scanner, digit: char -> bool, lines: seq<Line>, k: nat)
    requires !digit('\\') && AllPassable(sc, digit, lines, 0) && k < |lines| && !IsBlank(lines[k])
    ensures var blocks := BlocksFrom(sc, digit, lines, 0);
            exists p :: 0 <= p < |blocks| && Within(blocks[p], k) &&
                        forall q :: 0 <= q < |blocks| && Within(blocks[q], k) ==> q == p
  {
    hide IsBlank, AllPassable, BlocksFrom;
    var blocks := BlocksFrom(sc, digit, lines, 0);
    var p := LineIsCovered(sc, digit, lines, 0, k);
    BlocksInOrder(sc, digit, lines, 0);
    forall q | 0 <= q < |blocks| && Within(blocks[q], k)
      ensures q == p
    {
      OrderedApart(lines, blocks, 0, if p < q then p else q, if p < q then q else p);
    }
  }

  // ---------- the scanners themselves ----------

  // The inner loop of a block: collects the texts and moves the counter.
  method ReadRun(sc: Scanner, digit: char -> bool, kind: Kind, lines: seq<Line>, start: nat, texts0: seq<string>)
    returns (texts: seq<string>, i: nat)
    requires start <= |lines|
    ensures i == RunEnd(sc, digit, kind, lines, start)
    ensures texts == texts0 + Pieces(digit, kind, lines[start..i])
  {
    hide Stops, Piece;
    texts, i := texts0, start;
    while i < |lines| && !Stops(sc, digit, kind, lines, i)
      invariant start <= i <= |lines|
      invariant RunEnd(sc, digit, kind, lines, i) == RunEnd(sc, digit, kind, lines, start)
      invariant texts == texts0 + Pieces(digit, kind, lines[start..i])
    {
      PiecesAppend(digit, kind, lines[start..i], lines[i]);
      SliceGrows(lines, start, i);
      texts, i := texts + [Piece(digit, kind, lines[i])], i + 1;
    }
  }

  lemma {:induction false} PiecesAppend(digit: char -> bool, kind: Kind, lines: seq<Line>, line: Line)
    ensures Pieces(digit, kind, lines + [line]) == Pieces(digit, kind, lines) + [Piece(digit, kind, line)]
  {
    hide Piece;
    if lines == [] {
      assert lines + [line] == [line];
    } else {
      assert (lines + [line])[1..] == lines[1..] + [line];
      PiecesAppend(digit, kind, lines[1..], line);
    }
  }

  method ReadBlock(sc: Scanner, digit: char -> bool, lines: seq<Line>, start: nat) returns (b: Block)
    requires start < |lines|
    ensures b == BlockAt(sc, digit, lines, start)
  {
    hide Pieces, Stops, KindAt, RunEnd;
    var kind := KindAt(digit, lines, start);
    var texts: seq<string>, i := [], start;
    match kind {
      case Code =>
        texts, i := ReadRun(sc, digit, kind, lines, start + 1, []);
        if sc.Bilingual? || i < |lines| { i := i + 1; }
      case Formula =>
        texts, i := ReadRun(sc, digit, kind, lines, start + 1, []);
        if i < |lines| { i := i + 1; }
      case Table =>
        texts, i := ReadTableRun(sc, digit, lines, start);
      case Heading =>
        HeadingRun(sc, digit, lines, start + 1);
        texts, i := Pieces(digit, kind, lines[start..start + 1]), start + 1;
      case _ =>
        texts, i := ReadRun(sc, digit, kind, lines, start, []);
    }
    b := Block(kind, start, i, texts);
  }

  method ReadTableRun(sc: Scanner, digit: char -> bool, lines: seq<Line>, start: nat)
    returns (texts: seq<string>, i: nat)
    requires start + 1 < |lines|
    ensures i == RunEnd(sc, digit, Table, lines, start + 2) && texts == Pieces(digit, Table, lines[start..i])
  {
    hide Pieces, RunEnd;
    var head := lines[start..start + 2];
    texts, i := ReadRun(sc, digit, Table, lines, start + 2, Pieces(digit, Table, head));
    PiecesJoin(digit, Table, head, lines[start + 2..i]);
    assert lines[start..i] == head + lines[start + 2..i];
  }

  lemma HeadingRun(sc: Scanner, digit: char -> bool, lines: seq<Line>, i: nat)
    requires i <= |lines|
    ensures RunEnd(sc, digit, Heading, lines, i) == i
  {
  }

  lemma {:induction false} PiecesJoin(digit: char -> bool, kind: Kind, a: seq<Line>, b: seq<Line>)
    ensures Pieces(digit, kind, a + b) == Pieces(digit, kind, a) + Pieces(digit, kind, b)
  {
    hide Piece;
    if a == [] {
      assert a + b == b;
    } else {
      assert (a + b)[1..] == a[1..] + b;
      PiecesJoin(digit, kind, a[1..], b);
    }
  }

  lemma NoBlocksLeft(sc: Scanner, digit: char -> bool, lines: seq<Line>, i: nat)
    requires !digit('\\') && AllPassable(sc, digit, lines, i) && i >= |lines|
    ensures BlocksFrom(sc, digit, lines, i) == []
  {
  }

  method ScanBlocks(sc: Scanner, digit: char -> bool, lines: seq<Line>) returns (blocks: seq<Block>)
    requires !digit('\\') && AllPassable(sc, digit, lines, 0)
    ensures blocks == BlocksFrom(sc, digit, lines, 0)
  {
    hide AllPassable, IsBlank, BlockAt, BlocksFrom;
    blocks := [];
    var i := 0;
    while i < |lines|
      invariant AllPassable(sc, digit, lines, i)
      invariant blocks + BlocksFrom(sc, digit, lines, i) == BlocksFrom(sc, digit, lines, 0)
      decreases |lines| - i
    {
      ghost var turn, j := BlocksStep(sc, digit, lines, i);
      Regroup(blocks, turn, BlocksFrom(sc, digit, lines, j));
      if IsBlank(lines[i]) {
        i := i + 1;
        assert blocks + turn == blocks;
      } else {
        var b := ReadBlock(sc, digit, lines, i);
        blocks, i := blocks + [b], b.next;
      }
    }
    NoBlocksLeft(sc, digit, lines, i);
  }

  // The bilingual builder needs nothing of its input.
  method BuildBlocks(digit: char -> bool, lines: seq<Line>) returns (blocks: seq<Block>)
    requires !digit('\\')
    ensures AllPassable(Bilingual, digit, lines, 0) && blocks == BlocksFrom(Bilingual, digit, lines, 0)
  {
    PassableTexts(Bilingual, digit, lines, 0);
    blocks := ScanBlocks(Bilingual, digit, lines);
  }

  // The paper builder returns only on texts it can get through.
  method BuildBody(digit: char -> bool, lines: seq<Line>) returns (story: seq<Block>)
    requires !digit('\\') && AllPassable(Paper, digit, lines, 0)
    ensures story == BlocksFrom(Paper, digit, lines, 0)
  {
    story := ScanBlocks(Paper, digit, lines);
  }
}