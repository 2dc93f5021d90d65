/** Reading the agent log: the backwards tail, the line counter, the forward window and the
    cursor pages of `logs_payload`. A file is its bytes; decoding is taken as the identity. */
module PieceLists {
  import opened Folding


  /** A row that one reader shows as several pieces and another as one item. */
  datatype Row<T> = Row(pieces: seq<T>, shown: T)

  /** A single piece is what is shown; a blank row has blank pieces only; and a row of several
      pieces ends in what is shown only if it is blank. */
  ghost predicate Sound<T>(row: Row<T>, blank: T) {
    && row.pieces != []
    && (|row.pieces| == 1 ==> row.pieces[0] == row.shown)
    && (row.shown == blank ==> forall i :: 0 <= i < |row.pieces| ==> row.pieces[i] == blank)
    && (|row.pieces| > 1 && row.pieces[|row.pieces| - 1] == row.shown ==> row.shown == blank)
  }

  ghost predicate AllSound<T>(rows: seq<Row<T>>, blank: T) {
    forall i :: 0 <= i < |rows| ==> Sound(rows[i], blank)
  }

  ghost predicate AllSingle<T>(rows: seq<Row<T>>) {
    forall i :: 0 <= i < |rows| ==> |rows[i].pieces| == 1
  }

  function Flat<T>(rows: seq<Row<T>>): seq<T> {
    if rows == [] then [] else Flat(rows[..|rows| - 1]) + rows[|rows| - 1].pieces
  }

  function Shown<T>(rows: seq<Row<T>>): (r: seq<T>)
    ensures |r| == |rows| && forall i :: 0 <= i < |r| ==> r[i] == rows[i].shown
  {
    if rows == [] then [] else Shown(rows[..|rows| - 1]) + [rows[|rows| - 1].shown]
  }

  function LastN<T>(xs: seq<T>, n: int): seq<T> {
    if n <= 0 then [] else if |xs| <= n then xs else xs[|xs| - n..]
  }

  lemma Assoc<T>(a: seq<T>, b: seq<T>, c: seq<T>)
    ensures a + (b + c) == (a + b) + c
  {
  }

  lemma NoFront<T>(a: seq<T>)
    ensures [] + a == a
  {
  }

  lemma FlatSnoc<T>(rows: seq<Row<T>>, row: Row<T>)
    ensures Flat(rows + [row]) == Flat(rows) + row.pieces
    ensures Shown(rows + [row]) == Shown(rows) + [row.shown]
  {
    assert (rows + [row])[..|rows|] == rows;
  }

  lemma {:induction false} FlatConcat<T>(a: seq<Row<T>>, b: seq<Row<T>>)
    ensures Flat(a + b) == Flat(a) + Flat(b)
  {
    if b == [] {
      assert a + b == a;
    } else {
      var l, row := b[..|b| - 1], b[|b| - 1];
      FlatConcat(a, l);
      assert b == l + [row];
      Assoc(a, l, [row]);
      FlatSnoc(a + l, row);
      FlatSnoc(l, row);
      Assoc(Flat(a), Flat(l), row.pieces);
    }
  }

  lemma FlatCons<T>(row: Row<T>, rows: seq<Row<T>>)
    ensures Flat([row] + rows) == row.pieces + Flat(rows)
  {
    FlatConcat([row], rows);
    FlatSnoc([], row);
    NoFront([row]);
    NoFront(row.pieces);
  }

  lemma {:induction false} FlatLonger<T>(rows: seq<Row<T>>, blank: T)
    requires AllSound(rows, blank)
    ensures |Flat(rows)| >= |rows|
    ensures !AllSingle(rows) ==> |Flat(rows)| > |rows|
  {
    if rows != [] {
      var l := rows[..|rows| - 1];
      FlatLonger(l, blank);
      if AllSingle(l) && !AllSingle(rows) {
        assert |rows[|rows| - 1].pieces| != 1;
      }
    }
  }

  lemma {:induction false} FlatSingle<T>(rows: seq<Row<T>>, blank: T)
    requires AllSound(rows, blank) && AllSingle(rows)
    ensures Flat(rows) == Shown(rows)
  {
    if rows != [] {
      var l, row := rows[..|rows| - 1], rows[|rows| - 1];
      FlatSingle(l, blank);
      assert row.pieces == [row.shown];
    }
  }

  // ----- the last rows -----

  /** Every row of several pieces stands in a stretch of blank rows at the beginning. */
  ghost predicate Harmless<T>(rows: seq<Row<T>>, blank: T) {
    forall i, j :: 0 <= j <= i < |rows| && |rows[i].pieces| > 1 ==> rows[j].shown == blank
  }

  ghost predicate AllBlank<T>(rows: seq<Row<T>>, blank: T) {
    forall j :: 0 <= j < |rows| ==> rows[j].shown == blank
  }

  function Blanks<T>(e: nat, blank: T): (r: seq<T>)
    ensures |r| == e && forall i :: 0 <= i < e ==> r[i] == blank
  {
    if e == 0 then [] else Blanks(e - 1, blank) + [blank]
  }

  lemma LastNSnoc<T>(xs: seq<T>, x: T, n: nat)
    requires n > 0
    ensures LastN(xs + [x], n) == LastN(xs, n - 1) + [x]
  {
  }

  lemma LastNSuffix<T>(a: seq<T>, b: seq<T>, n: nat)
    requires n <= |b|
    ensures LastN(a + b, n) == LastN(b, n)
  {
    if n > 0 { assert (a + b)[|a + b| - n..] == b[|b| - n..]; }
  }

  lemma SnocEqual<T>(a: seq<T>, x: T, b: seq<T>, y: T)
    ensures a + [x] == b + [y] <==> a == b && x == y
  {
    if a + [x] == b + [y] {
      assert a == (a + [x])[..|a|] && b == (b + [y])[..|b|];
      assert (a + [x])[|a|] == (b + [y])[|b|];
    }
  }

  /** The last items of xs are those of text; a folded definition. */
  ghost predicate EndsAs<T>(xs: seq<T>, text: seq<T>) {
    forall k :: Opened(xs, k) ==> LastN(xs, |text|) == text
  }

  lemma EndsAsIs<T>(xs: seq<T>, text: seq<T>)
    ensures EndsAs(xs, text) <==> LastN(xs, |text|) == text
  {
    assert Opened(xs, 0);
  }

  /** Both lists without their last items. */
  lemma SnocStep<T>(xs: seq<T>, x: T, text: seq<T>, y: T)
    ensures EndsAs(xs + [x], text + [y]) <==> EndsAs(xs, text) && x == y
  {
    EndsAsIs(xs + [x], text + [y]);
    EndsAsIs(xs, text);
    LastNSnoc(xs, x, |text| + 1);
    SnocEqual(LastN(xs, |text|), x, text, y);
  }

  lemma BlanksJoin<T>(pieces: seq<T>, e: nat, blank: T)
    requires forall i :: 0 <= i < |pieces| ==> pieces[i] == blank
    ensures pieces + Blanks(e, blank) == Blanks(|pieces| + e, blank)
  {
  }

  /** Blank pieces after a row: they match it only if it is blank, and then all the more blank
      pieces follow the rows before it. */
  lemma ShiftedSnoc<T>(front: seq<T>, row: Row<T>, e: nat, text: seq<T>, blank: T)
    requires e > 0 && Sound(row, blank)
    ensures EndsAs((front + row.pieces) + Blanks(e, blank), text + [row.shown]) <==>
              row.shown == blank && EndsAs(front + Blanks(|row.pieces| + e - 1, blank), text)
  {
    Assoc(front + row.pieces, Blanks(e - 1, blank), [blank]);
    SnocStep((front + row.pieces) + Blanks(e - 1, blank), blank, text, row.shown);
    if row.shown == blank {
      BlanksJoin(row.pieces, e - 1, blank);
      Assoc(front, row.pieces, Blanks(e - 1, blank));
    }
  }

  lemma Last1<T>(rows: seq<Row<T>>) returns (l: seq<Row<T>>, row: Row<T>)
    requires rows != []
    ensures rows == l + [row] && |l| < |rows|
    ensures Flat(rows) == Flat(l) + row.pieces && Shown(rows) == Shown(l) + [row.shown]
  {
    l, row := rows[..|rows| - 1], rows[|rows| - 1];
    FlatSnoc(l, row);
  }

  lemma AllSnoc<T>(l: seq<Row<T>>, row: Row<T>, blank: T)
    ensures AllSound(l + [row], blank) <==> AllSound(l, blank) && Sound(row, blank)
    ensures AllBlank(l + [row], blank) <==> AllBlank(l, blank) && row.shown == blank
  {
    var rows := l + [row];
    assert rows[|l|] == row && forall i :: 0 <= i < |l| ==> rows[i] == l[i];
  }

  /** Rows followed by extra blank pieces end as they are shown only if all are blank. */
  lemma {:induction false} ShiftedIff<T>(rows: seq<Row<T>>, e: nat, blank: T)
    requires e > 0 && AllSound(rows, blank)
    ensures EndsAs(Flat(rows) + Blanks(e, blank), Shown(rows)) <==> AllBlank(rows, blank)
    decreases |rows|
  {
    if rows == [] {
      EndsAsIs(Flat(rows) + Blanks(e, blank), Shown(rows));
    } else {
      var l, row := Last1(rows);
      AllSnoc(l, row, blank);
      ShiftedSnoc(Flat(l), row, e, Shown(l), blank);
      if row.shown == blank { ShiftedIff(l, |row.pieces| + e - 1, blank); }
    }
  }

  lemma HarmlessSnoc<T>(l: seq<Row<T>>, row: Row<T>, blank: T)
    ensures Harmless(l + [row], blank) <==>
              Harmless(l, blank) && (|row.pieces| > 1 ==> AllBlank(l, blank) && row.shown == blank)
  {
    var rows := l + [row];
    assert forall i :: 0 <= i < |l| ==> rows[i] == l[i];
    assert rows[|l|] == row;
  }

  lemma AlignedSeveral<T>(l: seq<Row<T>>, row: Row<T>, blank: T)
    requires AllSound(l, blank) && Sound(row, blank) && |row.pieces| > 1
    ensures EndsAs(Flat(l) + row.pieces, Shown(l) + [row.shown]) <==> AllBlank(l, blank) && row.shown == blank
  {
    var k := |row.pieces| - 1;
    var front, last := row.pieces[..k], row.pieces[k];
    assert row.pieces == front + [last];
    Assoc(Flat(l), front, [last]);
    SnocStep(Flat(l) + front, last, Shown(l), row.shown);
    if row.shown == blank { ShiftedFront(l, front, blank); }
  }

  lemma ShiftedFront<T>(l: seq<Row<T>>, front: seq<T>, blank: T)
    requires AllSound(l, blank) && front != [] && forall i :: 0 <= i < |front| ==> front[i] == blank
    ensures EndsAs(Flat(l) + front, Shown(l)) <==> AllBlank(l, blank)
  {
    BlanksJoin(front, 0, blank);
    assert front + Blanks(0, blank) == front;
    ShiftedIff(l, |front|, blank);
  }

  /** The last pieces, as many as there are rows, are what is shown of the rows exactly when
      every row of several pieces is harmless. */
  lemma {:induction false} AlignedIff<T>(rows: seq<Row<T>>, blank: T)
    requires AllSound(rows, blank)
    ensures EndsAs(Flat(rows), Shown(rows)) <==> Harmless(rows, blank)
    decreases |rows|
  {
    if rows == [] {
      EndsAsIs(Flat(rows), Shown(rows));
    } else {
      var l, row := Last1(rows);
      AllSnoc(l, row, blank);
      HarmlessSnoc(l, row, blank);
      if |row.pieces| > 1 {
        AlignedSeveral(l, row, blank);
      } else {
        assert row.pieces == [row.shown];
        SnocStep(Flat(l), row.shown, Shown(l), row.shown);
        AlignedIff(l, blank);
      }
    }
  }

  /** The last pieces come from the last rows. */
  lemma LastPieces<T>(rows: seq<Row<T>>, n: nat, blank: T)
    requires n <= |rows| && AllSound(rows, blank)
    ensures |Flat(rows)| >= n && LastN(Flat(rows), n) == LastN(Flat(rows[|rows| - n..]), n)
  {
    var front, last := rows[..|rows| - n], rows[|rows| - n..];
    assert rows == front + last;
    FlatConcat(front, last);
    SoundTail(rows, |rows| - n, blank);
    FlatLonger(last, blank);
    LastNSuffix(Flat(front), Flat(last), n);
  }

  ghost predicate LastHarmless<T>(rows: seq<Row<T>>, n: nat, blank: T) {
    if n <= |rows| then Harmless(rows[|rows| - n..], blank) else AllSingle(rows)
  }

  lemma {:induction false} ShownDrop<T>(rows: seq<Row<T>>, m: nat)
    requires m <= |rows|
    ensures Shown(rows)[m..] == Shown(rows[m..])
    decreases |rows|
  {
    if m < |rows| {
      var l, row := Last1(rows);
      ShownDrop(l, m);
      assert rows[m..] == l[m..] + [row];
      FlatSnoc(l[m..], row);
      assert (Shown(l) + [row.shown])[m..] == Shown(l)[m..] + [row.shown];
    }
  }

  lemma ShownTail<T>(rows: seq<Row<T>>, n: nat)
    requires n <= |rows|
    ensures LastN(Shown(rows), n) == Shown(rows[|rows| - n..])
  {
    ShownDrop(rows, |rows| - n);
    LastNIs(Shown(rows), n);
  }

  lemma LastNIs<T>(xs: seq<T>, n: nat)
    requires n <= |xs|
    ensures LastN(xs, n) == xs[|xs| - n..]
  {
  }

  /** The last n pieces are what is shown of the last n rows exactly when these are harmless,
      or all single if there are fewer. */
  lemma LastShownIff<T>(rows: seq<Row<T>>, n: nat, blank: T)
    requires AllSound(rows, blank)
    ensures LastN(Flat(rows), n) == LastN(Shown(rows), n) <==> LastHarmless(rows, n, blank)
  {
    if n <= |rows| {
      LastLong(rows, n, blank);
    } else {
      LastShort(rows, n, blank);
    }
  }

  lemma SoundTail<T>(rows: seq<Row<T>>, m: nat, blank: T)
    requires m <= |rows| && AllSound(rows, blank)
    ensures AllSound(rows[m..], blank)
  {
  }

  lemma LastLong<T>(rows: seq<Row<T>>, n: nat, blank: T)
    requires AllSound(rows, blank) && n <= |rows|
    ensures LastN(Flat(rows), n) == LastN(Shown(rows), n) <==> Harmless(rows[|rows| - n..], blank)
  {
    SoundTail(rows, |rows| - n, blank);
    TailEndsAs(rows, n, blank);
    AlignedIff(rows[|rows| - n..], blank);
  }

  lemma TailEndsAs<T>(rows: seq<Row<T>>, n: nat, blank: T)
    requires n <= |rows| && AllSound(rows, blank)
    ensures LastN(Flat(rows), n) == LastN(Shown(rows), n) <==>
              EndsAs(Flat(rows[|rows| - n..]), Shown(rows[|rows| - n..]))
  {
    LastPieces(rows, n, blank);
    ShownTail(rows, n);
    EndsAsIs(Flat(rows[|rows| - n..]), Shown(rows[|rows| - n..]));
  }

  lemma LastShort<T>(rows: seq<Row<T>>, n: nat, blank: T)
    requires AllSound(rows, blank) && n > |rows|
    ensures LastN(Flat(rows), n) == LastN(Shown(rows), n) <==> AllSingle(rows)
  {
    FlatLonger(rows, blank);
    if AllSingle(rows) { FlatSingle(rows, blank); }
  }
}

module LogLines {
  import opened PieceLists

  type byte = b: int | 0 <= b < 256
  type Bytes = seq<byte>

  const LF: byte := 10
  const CR: byte := 13

  /** The first CR or LF from position i on, or the end. */
  function LineEnd(b: Bytes, i: nat): (n: nat)
    requires i <= |b|
    ensures i <= n <= |b|
    decreases |b| - i
  {
    if i == |b| || b[i] == CR || b[i] == LF then i else LineEnd(b, i + 1)
  }

  lemma {:induction false} LineEndIs(b: Bytes, i: nat)
    requires i <= |b|
    ensures forall k :: i <= k < LineEnd(b, i) ==> b[k] != CR && b[k] != LF
    ensures LineEnd(b, i) < |b| ==> b[LineEnd(b, i)] == CR || b[LineEnd(b, i)] == LF
    decreases |b| - i
  {
    if i < |b| && b[i] != CR && b[i] != LF { LineEndIs(b, i + 1); }
  }

  /** Length of the text before the first line terminator, CR or LF. */
  function LineLen(b: Bytes): (n: nat)
    ensures n <= |b|
  {
    LineEnd(b, 0)
  }

  /** Length of the terminator at position n: CR LF counts as one. */
  function TermLen(b: Bytes, n: nat): (t: nat)
    requires n <= |b|
    ensures n + t <= |b| && (n < |b| ==> t > 0)
  {
    if n == |b| then 0
    else if b[n] == CR && n + 1 < |b| && b[n + 1] == LF then 2
    else 1
  }

  /** `bytes.splitlines()`. */
  function SplitLines(b: Bytes): seq<Bytes> {
    if b == [] then []
    else
      var n := LineLen(b);
      [b[..n]] + SplitLines(b[n + TermLen(b, n)..])
  }

  /** The first LF from position i on, or the end. */
  function LfEnd(b: Bytes, i: nat): (n: nat)
    requires i <= |b|
    ensures i <= n <= |b|
    decreases |b| - i
  {
    if i == |b| || b[i] == LF then i else LfEnd(b, i + 1)
  }

  lemma {:induction false} LfEndIs(b: Bytes, i: nat)
    requires i <= |b|
    ensures forall k :: i <= k < LfEnd(b, i) ==> b[k] != LF
    ensures LfEnd(b, i) < |b| ==> b[LfEnd(b, i)] == LF
    decreases |b| - i
  {
    if i < |b| && b[i] != LF { LfEndIs(b, i + 1); }
  }

  /** Length of the text before the first LF. */
  function LfLen(b: Bytes): (n: nat)
    ensures n <= |b|
  {
    LfEnd(b, 0)
  }

  /** What remains after the first LF, or nothing. */
  function AfterLf(b: Bytes): (r: Bytes)
    ensures b != [] ==> |r| < |b|
  {
    if LfLen(b) < |b| then b[LfLen(b) + 1..] else []
  }

  /** The physical lines a binary file handle yields, without their LF. */
  function LfLines(b: Bytes): seq<Bytes>
    decreases |b|
  {
    if b == [] then [] else [b[..LfLen(b)]] + LfLines(AfterLf(b))
  }

  /** `raw.rstrip(b"\r\n")` on a line that holds no LF. */
  function RStripCr(line: Bytes): Bytes {
    if line != [] && line[|line| - 1] == CR then RStripCr(line[..|line| - 1]) else line
  }

  function StripAll(lines: seq<Bytes>): (r: seq<Bytes>)
    ensures |r| == |lines| && forall i :: 0 <= i < |r| ==> r[i] == RStripCr(lines[i])
  {
    if lines == [] then [] else [RStripCr(lines[0])] + StripAll(lines[1..])
  }

  /** The lines the forward reader shows. */
  function TextLines(b: Bytes): (r: seq<Bytes>)
    ensures |r| == |LfLines(b)|
  {
    StripAll(LfLines(b))
  }

  function CountLf(b: Bytes): nat {
    if b == [] then 0 else (if b[0] == LF then 1 else 0) + CountLf(b[1..])
  }

  // ----- counting -----

  lemma {:induction false} CountConcat(a: Bytes, b: Bytes)
    ensures CountLf(a + b) == CountLf(a) + CountLf(b)
  {
    if a == [] {
      assert a + b == b;
    } else {
      assert (a + b)[1..] == a[1..] + b;
      CountConcat(a[1..], b);
    }
  }

  lemma {:induction false} CountNone(b: Bytes)
    requires forall i :: 0 <= i < |b| ==> b[i] != LF
    ensures CountLf(b) == 0
  {
    if b != [] { CountNone(b[1..]); }
  }

  lemma {:induction false} CountAt(b: Bytes, n: nat)
    requires n < |b| && b[n] == LF && forall i :: 0 <= i < n ==> b[i] != LF
    ensures CountLf(b) == 1 + CountLf(b[n + 1..])
    decreases n
  {
    if n > 0 {
      CountAt(b[1..], n - 1);
      assert b[1..][n..] == b[n + 1..];
    }
  }

  /** A file has one line per LF, and one more if it does not end in LF. */
  lemma {:induction false} LineCount(b: Bytes)
    ensures |LfLines(b)| == CountLf(b) + if b != [] && b[|b| - 1] != LF then 1 else 0
  {
    if b != [] {
      LfEndIs(b, 0);
      if LfLen(b) < |b| {
        CountAt(b, LfLen(b));
        LineCount(AfterLf(b));
        SameEnd(b, LfLen(b));
      } else {
        CountNone(b);
      }
    }
  }

  lemma SameEnd(b: Bytes, n: nat)
    requires n < |b|
    ensures b[n + 1..] == [] ==> n == |b| - 1
    ensures b[n + 1..] != [] ==> b[n + 1..][|b[n + 1..]| - 1] == b[|b| - 1]
  {
  }

  lemma CountChunk(file: Bytes, pos: nat, len: nat)
    requires pos + len <= |file|
    ensures CountLf(file[..pos + len]) == CountLf(file[..pos]) + CountLf(file[pos..pos + len])
  {
    assert file[..pos + len] == file[..pos] + file[pos..pos + len];
    CountConcat(file[..pos], file[pos..pos + len]);
  }

  /** `count_log_lines`: the file is read in chunks of the given size. */
  method CountLogLines(file: Bytes, chunkSize: nat) returns (total: nat)
    requires chunkSize > 0
    ensures total == |LfLines(file)|
  {
    total := 0;
    var last: Bytes := [];
    var pos := 0;
    while pos < |file|
      invariant 0 <= pos <= |file|
      invariant total == CountLf(file[..pos])
      invariant last == if pos == 0 then [] else [file[pos - 1]]
    {
      var len := if chunkSize < |file| - pos then chunkSize else |file| - pos;
      var chunk := file[pos..pos + len];
      CountChunk(file, pos, len);
      total := total + CountLf(chunk);
      last := chunk[|chunk| - 1..];
      pos := pos + len;
    }
    assert file[..|file|] == file;
    LineCount(file);
    if last != [] && last != [LF] {
      total := total + 1;
    }
  }

  // ----- the backwards tail -----

  /** Every LF ends a line, so there are at least as many lines. */
  lemma {:induction false} AtLeastCount(b: Bytes)
    ensures |SplitLines(b)| >= CountLf(b)
  {
    if b != [] {
      SplitStep(b);
      FirstCount(b);
      AtLeastCount(b[FirstEnd(b)..]);
    }
  }

  /** The first line, terminator included, holds at most one LF. */
  lemma FirstCount(b: Bytes)
    requires b != []
    ensures FirstEnd(b) <= |b| && CountLf(b) <= 1 + CountLf(b[FirstEnd(b)..])
  {
    FirstFree(b);
    CountFront(b, FirstEnd(b));
  }

  lemma FirstFree(b: Bytes)
    requires b != []
    ensures FirstEnd(b) <= |b| && forall i :: 0 <= i < FirstEnd(b) - 1 ==> b[i] != LF
  {
    LineEndIs(b, 0);
  }

  lemma CountFront(b: Bytes, k: nat)
    requires k <= |b| && forall i :: 0 <= i < k - 1 ==> b[i] != LF
    ensures CountLf(b) <= 1 + CountLf(b[k..])
  {
    CountDrop(b, k);
    AtMostOne(b[..k]);
  }

  lemma CountDrop(b: Bytes, k: nat)
    requires k <= |b|
    ensures CountLf(b) == CountLf(b[..k]) + CountLf(b[k..])
  {
    assert b == b[..k] + b[k..];
    CountConcat(b[..k], b[k..]);
  }

  lemma {:induction false} AtMostOne(b: Bytes)
    requires forall i :: 0 <= i < |b| - 1 ==> b[i] != LF
    ensures CountLf(b) <= 1
  {
    if b != [] { AtMostOne(b[1..]); }
  }

  /** Splitting a suffix s of a file gives the file's last lines, except that the first piece
      may be only the end of one. */
  lemma {:induction false} SuffixLines(p: Bytes, s: Bytes) returns (a: seq<Bytes>)
    requires s != []
    ensures SplitLines(p + s) == a + SplitLines(s)[1..] && a != []
    decreases |p|
  {
    var f := p + s;
    var k := FirstEnd(f);
    var first := f[..LineLen(f)];
    SplitStep(f);
    if k <= |p| && p != [] {
      var b := SuffixLines(p[k..], s);
      DropFront(p, s, k);
      a := [first] + b;
      Assoc([first], b, SplitLines(s)[1..]);
    } else {
      a := [first];
      RestSame(p, s);
      TailOfSplit(s);
    }
  }

  /** Where the first line, terminator included, ends. */
  function FirstEnd(b: Bytes): nat {
    LineLen(b) + TermLen(b, LineLen(b))
  }

  lemma SplitStep(b: Bytes)
    requires b != []
    ensures 0 < FirstEnd(b) <= |b| && SplitLines(b) == [b[..LineLen(b)]] + SplitLines(b[FirstEnd(b)..])
  {
  }

  lemma DropFront<T>(p: seq<T>, s: seq<T>, k: nat)
    requires k <= |p|
    ensures (p + s)[k..] == p[k..] + s
  {
  }

  lemma TailOfSplit(b: Bytes)
    requires b != []
    ensures FirstEnd(b) <= |b| && SplitLines(b)[1..] == SplitLines(b[FirstEnd(b)..])
  {
  }

  /** If the first line of p + s reaches into s, what follows it is what follows the first
      line of s. */
  lemma RestSame(p: Bytes, s: Bytes)
    requires s != []
    requires p == [] || FirstEnd(p + s) > |p|
    ensures FirstEnd(p + s) <= |p + s| && FirstEnd(s) <= |s|
    ensures (p + s)[FirstEnd(p + s)..] == s[FirstEnd(s)..]
  {
    var f := p + s;
    var n := LineLen(f);
    LineEndIs(f, 0);
    if n >= |p| {
      LineLenShift(p, s);
    } else {
      assert f[n + 1] == s[0] == LF;
      assert LineLen(s) == 0 && TermLen(s, 0) == 1;
    }
  }

  lemma LineLenUnique(b: Bytes, n: nat)
    requires n <= |b| && (forall i :: 0 <= i < n ==> b[i] != CR && b[i] != LF)
    requires n < |b| ==> b[n] == CR || b[n] == LF
    ensures LineLen(b) == n
  {
    LineEndUnique(b, 0, n);
  }

  lemma {:induction false} LineEndUnique(b: Bytes, i: nat, n: nat)
    requires i <= n <= |b| && (forall k :: i <= k < n ==> b[k] != CR && b[k] != LF)
    requires n < |b| ==> b[n] == CR || b[n] == LF
    ensures LineEnd(b, i) == n
    decreases n - i
  {
    if i < n { LineEndUnique(b, i + 1, n); }
  }

  lemma LineLenShift(p: Bytes, s: Bytes)
    requires LineLen(p + s) >= |p|
    ensures LineLen(p + s) == |p| + LineLen(s)
    ensures TermLen(p + s, LineLen(p + s)) == TermLen(s, LineLen(s))
  {
    var f := p + s;
    LineEndIs(f, 0);
    LineEndIs(s, 0);
    assert forall i :: 0 <= i < |s| ==> f[|p| + i] == s[i];
    LineLenUnique(f, |p| + LineLen(s));
  }

  function Join(chunks: seq<Bytes>): Bytes {
    if chunks == [] then [] else chunks[0] + Join(chunks[1..])
  }

  /** `tail_log_file`: blocks are read from the end until they hold more than n LFs. */
  method TailLogFile(file: Bytes, n: int, block: nat) returns (lines: seq<Bytes>, truncated: bool)
    requires block > 0
    ensures n != 0 ==> lines == LastN(SplitLines(file), n)
    ensures truncated <==> file != [] && |SplitLines(file)| > n
    ensures n == 0 && file != [] ==> lines != LastN(SplitLines(file), n)
  {
    if |file| == 0 {
      return [], false;
    }
    var chunks: seq<Bytes> := [];
    var pos := |file|;
    var newlineCount := 0;
    while pos > 0 && newlineCount <= n
      invariant 0 <= pos <= |file|
      invariant Join(chunks) == file[pos..]
      invariant newlineCount == CountLf(file[pos..])
      invariant n < 0 ==> pos == |file|
    {
      var len := if block < pos then block else pos;
      ghost var end := pos;
      pos := pos - len;
      chunks := [file[pos..pos + len]] + chunks;
      assert file[pos..] == file[pos..end] + file[end..];
      newlineCount := CountLf(Join(chunks));
    }
    var raw := SplitLines(Join(chunks));
    truncated := |raw| > n;
    lines := if truncated then PyLast(raw, n) else raw;
    TailIsRight(file, n, pos, raw);
  }

  /** Python's `raw[-n:]`. */
  function PyLast(raw: seq<Bytes>, n: int): seq<Bytes> {
    if n > 0 then (if n <= |raw| then raw[|raw| - n..] else raw)
    else if -n <= |raw| then raw[-n..] else []
  }

  /** If a suffix of the file holds more than n LFs, its last n lines are the file's. */
  lemma TailOfSuffix(file: Bytes, n: nat, pos: nat)
    requires pos < |file| && CountLf(file[pos..]) > n
    ensures |SplitLines(file)| >= |SplitLines(file[pos..])| > n
    ensures n > 0 ==> LastN(SplitLines(file[pos..]), n) == LastN(SplitLines(file), n)
  {
    AtLeastCount(file[pos..]);
    assert file == file[..pos] + file[pos..];
    var a := SuffixLines(file[..pos], file[pos..]);
    LastOf(SplitLines(file), a, SplitLines(file[pos..]), n);
  }

  lemma LastOf(all: seq<Bytes>, a: seq<Bytes>, raw: seq<Bytes>, n: nat)
    requires raw != [] && all == a + raw[1..] && a != [] && n < |raw|
    ensures LastN(raw, n) == LastN(all, n)
  {
    if n > 0 {
      assert all[|all| - n..] == raw[|raw| - n..];
    }
  }

  lemma TailIsRight(file: Bytes, n: int, pos: nat, raw: seq<Bytes>)
    requires file != [] && pos <= |file| && raw == SplitLines(file[pos..])
    requires pos == 0 || CountLf(file[pos..]) > n
    requires if n >= 0 then pos < |file| else pos == |file|
    ensures |raw| > n <==> |SplitLines(file)| > n
    ensures n != 0 ==> (if |raw| > n then PyLast(raw, n) else raw) == LastN(SplitLines(file), n)
    ensures n == 0 ==> |raw| > 0
  {
    if pos == 0 {
      assert file[pos..] == file;
    } else if n >= 0 {
      TailOfSuffix(file, n, pos);
    }
  }
}

module LogPages {
  import opened Wrappers
  import opened PieceLists
  import opened LogLines

  // ----- the two ways of splitting, line by line -----

  /** r cut at every CR. */
  function Cut(r: Bytes): (pieces: seq<Bytes>)
    ensures pieces != []
    decreases |r|
  {
    var k := CrEnd(r, 0);
    if k == |r| then [r] else [r[..k]] + Cut(r[k + 1..])
  }

  /** The first CR from position i on, or the end. */
  function CrEnd(r: Bytes, i: nat): (k: nat)
    requires i <= |r|
    ensures i <= k <= |r| && (forall j :: i <= j < k ==> r[j] != CR) && (k < |r| ==> r[k] == CR)
    decreases |r| - i
  {
    if i == |r| || r[i] == CR then i else CrEnd(r, i + 1)
  }

  /** What `splitlines` makes of a physical line: a CR at its end belongs to the terminator. */
  function Pieces(r: Bytes): (pieces: seq<Bytes>)
    ensures pieces != []
  {
    if r != [] && r[|r| - 1] == CR then Cut(r[..|r| - 1]) else Cut(r)
  }

  lemma {:induction false} CrEndUnique(r: Bytes, i: nat, k: nat)
    requires i <= k <= |r| && (forall j :: i <= j < k ==> r[j] != CR) && (k < |r| ==> r[k] == CR)
    ensures CrEnd(r, i) == k
    decreases k - i
  {
    if i < k { CrEndUnique(r, i + 1, k); }
  }

  lemma CutNone(r: Bytes)
    requires forall j :: 0 <= j < |r| ==> r[j] != CR
    ensures Cut(r) == [r]
  {
    CrEndUnique(r, 0, |r|);
  }

  lemma CutAt(r: Bytes, k: nat)
    requires k < |r| && r[k] == CR && forall j :: 0 <= j < k ==> r[j] != CR
    ensures Cut(r) == [r[..k]] + Cut(r[k + 1..])
  {
    CrEndUnique(r, 0, k);
  }

  /** Cutting off the first piece of a line whose CR does not end it. */
  lemma PiecesAt(r: Bytes, k: nat)
    requires k + 1 < |r| && r[k] == CR && forall j :: 0 <= j < k ==> r[j] != CR
    ensures Pieces(r) == [r[..k]] + Pieces(r[k + 1..])
  {
    var n := |r| - 1;
    assert r[k + 1..][|r[k + 1..]| - 1] == r[n];
    if r[n] == CR {
      CutAt(r[..n], k);
      SameSlices(r, k, n);
    } else {
      CutAt(r, k);
    }
  }

  lemma SameSlices(r: Bytes, k: nat, n: nat)
    requires k < n <= |r|
    ensures r[..n][..k] == r[..k] && r[..n][k + 1..] == r[k + 1..][..n - k - 1]
  {
  }

  lemma LfLenUnique(b: Bytes, n: nat)
    requires n <= |b| && (forall i :: 0 <= i < n ==> b[i] != LF) && (n < |b| ==> b[n] == LF)
    ensures LfLen(b) == n
  {
    LfEndUnique(b, 0, n);
  }

  lemma {:induction false} LfEndUnique(b: Bytes, i: nat, n: nat)
    requires i <= n <= |b| && (forall k :: i <= k < n ==> b[k] != LF) && (n < |b| ==> b[n] == LF)
    ensures LfEnd(b, i) == n
    decreases n - i
  {
    if i < n { LfEndUnique(b, i + 1, n); }
  }

  /** The first line's terminator ends a physical line too: both splitters go on after it. */
  lemma LineEnds(b: Bytes)
    requires b != [] && !(LineLen(b) + 1 < |b| && b[LineLen(b)] == CR && b[LineLen(b) + 1] != LF)
    ensures AfterLf(b) == b[FirstEnd(b)..]
    ensures Pieces(b[..LfLen(b)]) == [b[..LineLen(b)]]
  {
    var n := LineLen(b);
    LineEndIs(b, 0);
    CutNone(b[..n]);
    if n == |b| || b[n] == LF {
      LfLenUnique(b, n);
    } else {
      LfLenUnique(b, n + 1);
      assert b[..n + 1][..n] == b[..n];
    }
  }

  /** A CR within a physical line: splitting goes on inside it. */
  lemma LineGoesOn(b: Bytes)
    requires b != [] && LineLen(b) + 1 < |b| && b[LineLen(b)] == CR && b[LineLen(b) + 1] != LF
    ensures var rest := b[LineLen(b) + 1..];
            && rest != [] && AfterLf(b) == AfterLf(rest)
            && Pieces(b[..LfLen(b)]) == [b[..LineLen(b)]] + Pieces(rest[..LfLen(rest)])
  {
    var n := LineLen(b) + 1;
    BeforeCr(b, n - 1);
    LfOfRest(b, n);
    PiecesGoOn(b, n, LfLen(b[n..]));
  }

  lemma BeforeCr(b: Bytes, k: nat)
    requires k == LineLen(b) < |b| && b[k] == CR
    ensures forall i :: 0 <= i < k ==> b[i] != CR
    ensures forall i :: 0 <= i < k + 1 ==> b[i] != LF
  {
    LineEndIs(b, 0);
  }

  lemma PiecesGoOn(b: Bytes, n: nat, m: nat)
    requires 0 < n && 0 < m && n + m <= |b| && b[n - 1] == CR && forall i :: 0 <= i < n - 1 ==> b[i] != CR
    ensures Pieces(b[..n + m]) == [b[..n - 1]] + Pieces(b[n..][..m])
  {
    PiecesAt(b[..n + m], n - 1);
    SlicesAt(b, n, m);
  }

  lemma LfOfRest(b: Bytes, n: nat)
    requires n < |b| && forall i :: 0 <= i < n ==> b[i] != LF
    ensures LfLen(b) == n + LfLen(b[n..]) && AfterLf(b) == AfterLf(b[n..])
    ensures b[n] != LF ==> LfLen(b[n..]) > 0
  {
    LfEndIs(b[n..], 0);
    LfLenUnique(b, n + LfLen(b[n..]));
  }

  lemma SlicesAt(b: Bytes, n: nat, m: nat)
    requires 0 < n && n + m <= |b|
    ensures b[..n + m][n..] == b[n..][..m] && b[..n + m][..n - 1] == b[..n - 1]
  {
  }

  /** A physical line: what `splitlines` makes of it, and what the forward reader shows. */
  function RowOf(r: Bytes): Row<Bytes> {
    Row(Pieces(r), RStripCr(r))
  }

  function RowsOf(lines: seq<Bytes>): (rows: seq<Row<Bytes>>)
    ensures |rows| == |lines| && forall i :: 0 <= i < |rows| ==> rows[i] == RowOf(lines[i])
  {
    if lines == [] then [] else [RowOf(lines[0])] + RowsOf(lines[1..])
  }

  lemma RowsCons(r: Bytes, lines: seq<Bytes>)
    ensures RowsOf([r] + lines) == [RowOf(r)] + RowsOf(lines)
  {
  }

  /** Splitting a file with `splitlines` is cutting each of its physical lines into pieces. */
  lemma {:induction false} SplitByLine(b: Bytes)
    ensures SplitLines(b) == Flat(RowsOf(LfLines(b)))
    decreases |b|
  {
    if b != [] {
      SplitStep(b);
      SplitByLine(b[FirstEnd(b)..]);
      if LineLen(b) + 1 < |b| && b[LineLen(b)] == CR && b[LineLen(b) + 1] != LF {
        SplitGoesOn(b);
      } else {
        RowsStep(b);
        LineEnds(b);
      }
    }
  }

  lemma SplitGoesOn(b: Bytes)
    requires b != [] && LineLen(b) + 1 < |b| && b[LineLen(b)] == CR && b[LineLen(b) + 1] != LF
    ensures Flat(RowsOf(LfLines(b))) == [b[..LineLen(b)]] + Flat(RowsOf(LfLines(b[LineLen(b) + 1..])))
  {
    var rest := b[LineLen(b) + 1..];
    LineGoesOn(b);
    RowsStep(b);
    RowsStep(rest);
    Assoc([b[..LineLen(b)]], Pieces(rest[..LfLen(rest)]), Flat(RowsOf(LfLines(AfterLf(b)))));
  }

  lemma RowsStep(b: Bytes)
    requires b != []
    ensures RowsOf(LfLines(b)) == [RowOf(b[..LfLen(b)])] + RowsOf(LfLines(AfterLf(b)))
    ensures Flat(RowsOf(LfLines(b))) == Pieces(b[..LfLen(b)]) + Flat(RowsOf(LfLines(AfterLf(b))))
  {
    FirstLine(b);
    RowsCons(b[..LfLen(b)], LfLines(AfterLf(b)));
    FlatCons(RowOf(b[..LfLen(b)]), RowsOf(LfLines(AfterLf(b))));
  }

  // ----- stray carriage returns -----

  /** Every CR stands right before an LF or ends the file. */
  predicate NoStrayCr(b: Bytes) {
    forall i :: 0 <= i < |b| && b[i] == CR ==> i + 1 == |b| || b[i + 1] == LF
  }

  /** A physical line with a CR before its last byte. */
  predicate StrayIn(r: Bytes) {
    exists i :: 0 <= i < |r| - 1 && r[i] == CR
  }

  predicate OnlyCr(r: Bytes) {
    forall i :: 0 <= i < |r| ==> r[i] == CR
  }

  ghost predicate NoneStray(lines: seq<Bytes>) {
    forall i :: 0 <= i < |lines| ==> !StrayIn(lines[i])
  }

  /** Each stray CR is in a stretch of lines at the beginning that hold nothing but CRs. */
  ghost predicate HarmlessLines(lines: seq<Bytes>) {
    forall i, j :: 0 <= j <= i < |lines| && StrayIn(lines[i]) ==> OnlyCr(lines[j])
  }

  lemma {:induction false} StripNone(line: Bytes)
    requires line == [] || line[|line| - 1] != CR
    ensures RStripCr(line) == line
  {
  }

  lemma StripOne(text: Bytes, line: Bytes)
    requires (text == [] || text[|text| - 1] != CR) && line == text + [CR]
    ensures RStripCr(line) == text
  {
    assert line[..|line| - 1] == text;
    StripNone(text);
  }

  /** Without a stray CR a line is one piece, the one the forward reader shows. */
  lemma OnePiece(r: Bytes)
    requires !StrayIn(r)
    ensures Pieces(r) == [RStripCr(r)]
  {
    if r != [] && r[|r| - 1] == CR {
      CutNone(r[..|r| - 1]);
      StripOne(r[..|r| - 1], r);
    } else {
      CutNone(r);
      StripNone(r);
    }
  }

  lemma {:induction false} CutMore(r: Bytes, i: nat)
    requires i < |r| && r[i] == CR
    ensures |Cut(r)| > 1
  {
  }

  lemma MorePieces(r: Bytes)
    requires StrayIn(r)
    ensures |Pieces(r)| > 1
  {
    var i :| 0 <= i < |r| - 1 && r[i] == CR;
    if r[|r| - 1] == CR {
      assert r[..|r| - 1][i] == CR;
      CutMore(r[..|r| - 1], i);
    } else {
      CutMore(r, i);
    }
  }

  /** A file has a stray CR if its first line or what follows that has one. */
  lemma NoStrayStep(b: Bytes)
    requires b != []
    ensures NoStrayCr(b) <==> !StrayIn(b[..LfLen(b)]) && NoStrayCr(AfterLf(b))
  {
    if NoStrayCr(b) {
      StrayKept(b);
    } else {
      var i :| 0 <= i < |b| && b[i] == CR && i + 1 != |b| && b[i + 1] != LF;
      StrayMoved(b, i);
    }
  }

  lemma StrayKept(b: Bytes)
    requires b != [] && NoStrayCr(b)
    ensures !StrayIn(b[..LfLen(b)]) && NoStrayCr(AfterLf(b))
  {
    var n := LfLen(b);
    LfEndIs(b, 0);
    var r, rest := b[..n], AfterLf(b);
    forall i | 0 <= i < |r| - 1 ensures r[i] != CR {
      assert b[i] == r[i] && b[i + 1] != LF;
    }
    forall i | 0 <= i < |rest| && rest[i] == CR ensures i + 1 == |rest| || rest[i + 1] == LF {
      assert rest[i] == b[n + 1 + i];
    }
  }

  lemma StrayMoved(b: Bytes, i: nat)
    requires i + 1 < |b| && b[i] == CR && b[i + 1] != LF
    ensures StrayIn(b[..LfLen(b)]) || !NoStrayCr(AfterLf(b))
  {
    var n := LfLen(b);
    LfEndIs(b, 0);
    if i < n {
      assert b[..n][i] == CR;
    } else {
      var rest := AfterLf(b);
      assert rest[i - n - 1] == CR && rest[i - n - 1 + 1] == b[i + 1];
    }
  }

  lemma {:induction false} NoStrayLines(b: Bytes)
    ensures NoStrayCr(b) <==> NoneStray(LfLines(b))
    decreases |b|
  {
    if b != [] {
      NoStrayStep(b);
      NoStrayLines(AfterLf(b));
      FirstLine(b);
      NoneStrayCons(b[..LfLen(b)], LfLines(AfterLf(b)));
    }
  }

  lemma NoneStrayCons(r: Bytes, lines: seq<Bytes>)
    ensures NoneStray([r] + lines) <==> !StrayIn(r) && NoneStray(lines)
  {
    var all := [r] + lines;
    assert all[0] == r && forall i :: 0 <= i < |lines| ==> lines[i] == all[i + 1];
    assert forall i :: 0 < i < |all| ==> all[i] == lines[i - 1];
  }

  lemma {:induction false} StripEmpty(r: Bytes)
    ensures RStripCr(r) == [] <==> OnlyCr(r)
  {
    if r != [] && r[|r| - 1] == CR {
      var q := r[..|r| - 1];
      StripEmpty(q);
      assert OnlyCr(q) ==> OnlyCr(r);
      assert OnlyCr(r) ==> OnlyCr(q);
    }
  }

  lemma {:induction false} CutClean(r: Bytes)
    ensures forall p :: p in Cut(r) ==> CR !in p
  {
    var k := CrEnd(r, 0);
    if k < |r| { CutClean(r[k + 1..]); }
  }

  lemma {:induction false} CutEnd(r: Bytes)
    requires r != [] && r[|r| - 1] == CR
    ensures Cut(r)[|Cut(r)| - 1] == []
  {
    var k := CrEnd(r, 0);
    if k + 1 < |r| {
      CutEnd(r[k + 1..]);
    }
  }

  lemma {:induction false} CutBlank(r: Bytes)
    requires OnlyCr(r)
    ensures forall p :: p in Cut(r) ==> p == []
  {
    if r != [] {
      CutAt(r, 0);
      CutBlank(r[1..]);
    }
  }

  lemma InnerCr(r: Bytes, i: nat)
    requires i < |r| && r[i] == CR
    ensures r !in Cut(r)
  {
    CutClean(r);
    assert r[i] in r;
  }

  lemma OpenEnd(r: Bytes)
    requires StrayIn(r) && r[|r| - 1] != CR
    ensures Pieces(r)[|Pieces(r)| - 1] != RStripCr(r)
  {
    var i :| 0 <= i < |r| - 1 && r[i] == CR;
    StripNone(r);
    InnerCr(r, i);
  }

  lemma OneCrEnd(q: Bytes, r: Bytes)
    requires StrayIn(r) && r == q + [CR] && q != [] && q[|q| - 1] != CR
    ensures Pieces(r)[|Pieces(r)| - 1] != RStripCr(r)
  {
    var i :| 0 <= i < |r| - 1 && r[i] == CR;
    assert r[..|r| - 1] == q && q[i] == CR;
    StripOne(q, r);
    InnerCr(q, i);
  }

  lemma MoreCrEnd(q: Bytes, r: Bytes)
    requires r == q + [CR] && q != [] && q[|q| - 1] == CR
    ensures Pieces(r)[|Pieces(r)| - 1] == []
  {
    assert r[..|r| - 1] == q;
    CutEnd(q);
  }

  /** If a line with a stray CR ends in the piece that the forward reader shows, it is all CRs. */
  lemma LastPiece(r: Bytes)
    requires StrayIn(r) && Pieces(r)[|Pieces(r)| - 1] == RStripCr(r)
    ensures OnlyCr(r)
  {
    var q := r[..|r| - 1];
    assert r == q + [r[|r| - 1]];
    if r[|r| - 1] != CR {
      OpenEnd(r);
    } else if q[|q| - 1] == CR {
      MoreCrEnd(q, r);
      StripEmpty(r);
    } else {
      OneCrEnd(q, r);
    }
  }

  lemma PiecesBlank(r: Bytes)
    requires OnlyCr(r)
    ensures forall i :: 0 <= i < |Pieces(r)| ==> Pieces(r)[i] == []
  {
    CutBlank(r);
    if r != [] { CutBlank(r[..|r| - 1]); }
    var pieces := Pieces(r);
    assert forall i :: 0 <= i < |pieces| ==> pieces[i] in pieces;
  }

  lemma RowSound(r: Bytes)
    ensures Sound(RowOf(r), []) && (|RowOf(r).pieces| > 1 <==> StrayIn(r)) && (RowOf(r).shown == [] <==> OnlyCr(r))
  {
    StripEmpty(r);
    if OnlyCr(r) { PiecesBlank(r); }
    if StrayIn(r) {
      MorePieces(r);
      if Pieces(r)[|Pieces(r)| - 1] == RStripCr(r) { LastPiece(r); }
    } else {
      OnePiece(r);
    }
  }

  /** What matters of a line. */
  ghost predicate RowFacts(row: Row<Bytes>, r: Bytes) {
    && Sound(row, []) && (|row.pieces| == 1 <==> !StrayIn(r)) && (row.shown == [] <==> OnlyCr(r))
    && row.shown == RStripCr(r)
  }

  ghost predicate AllFacts(rows: seq<Row<Bytes>>, lines: seq<Bytes>) {
    |rows| == |lines| && forall i :: 0 <= i < |rows| ==> RowFacts(rows[i], lines[i])
  }

  lemma RowsFacts(lines: seq<Bytes>)
    ensures AllFacts(RowsOf(lines), lines)
  {
    forall i | 0 <= i < |lines| ensures RowFacts(RowsOf(lines)[i], lines[i]) {
      RowSound(lines[i]);
    }
  }

  lemma FactsSound(rows: seq<Row<Bytes>>, lines: seq<Bytes>)
    requires AllFacts(rows, lines)
    ensures AllSound(rows, [])
  {
  }

  lemma FactsShown(rows: seq<Row<Bytes>>, lines: seq<Bytes>)
    requires AllFacts(rows, lines)
    ensures PieceLists.Shown(rows) == StripAll(lines)
  {
    assert forall i :: 0 <= i < |rows| ==> rows[i].shown == RStripCr(lines[i]);
  }

  lemma FactsSingle(rows: seq<Row<Bytes>>, lines: seq<Bytes>)
    requires AllFacts(rows, lines)
    ensures AllSingle(rows) <==> NoneStray(lines)
  {
    assert forall i :: 0 <= i < |rows| ==> (|rows[i].pieces| == 1 <==> !StrayIn(lines[i]));
    if !NoneStray(lines) {
      var i :| 0 <= i < |lines| && StrayIn(lines[i]);
      assert |rows[i].pieces| != 1;
    }
  }

  lemma FactsHarmless(rows: seq<Row<Bytes>>, lines: seq<Bytes>)
    requires AllFacts(rows, lines)
    ensures Harmless(rows, []) <==> HarmlessLines(lines)
  {
    assert forall i :: 0 <= i < |rows| ==> (|rows[i].pieces| > 1 <==> StrayIn(lines[i]));
    assert forall i :: 0 <= i < |rows| ==> (rows[i].shown == [] <==> OnlyCr(lines[i]));
  }

  lemma RowsSound(lines: seq<Bytes>)
    ensures AllSound(RowsOf(lines), []) && PieceLists.Shown(RowsOf(lines)) == StripAll(lines)
    ensures AllSingle(RowsOf(lines)) <==> NoneStray(lines)
    ensures Harmless(RowsOf(lines), []) <==> HarmlessLines(lines)
  {
    RowsFacts(lines);
    FactsSound(RowsOf(lines), lines);
    FactsShown(RowsOf(lines), lines);
    FactsSingle(RowsOf(lines), lines);
    FactsHarmless(RowsOf(lines), lines);
  }

  /** The tail and the forward reader see the same lines exactly when no CR is stray. */
  lemma AgreeIff(b: Bytes)
    ensures TextLines(b) == SplitLines(b) <==> NoStrayCr(b)
    ensures |SplitLines(b)| >= |TextLines(b)|
    ensures !NoStrayCr(b) ==> |SplitLines(b)| > |TextLines(b)|
  {
    SplitByLine(b);
    NoStrayLines(b);
    RowsSound(LfLines(b));
    FlatLonger(RowsOf(LfLines(b)), []);
    if NoStrayCr(b) { FlatSingle(RowsOf(LfLines(b)), []); }
  }

  // ----- the last lines -----

  /** The last n physical lines hold only harmless stray CRs; a file of fewer lines holds none. */
  ghost predicate TailRight(lines: seq<Bytes>, n: nat) {
    if n <= |lines| then HarmlessLines(lines[|lines| - n..]) else NoneStray(lines)
  }

  lemma RowsTail(lines: seq<Bytes>, m: nat)
    requires m <= |lines|
    ensures RowsOf(lines)[m..] == RowsOf(lines[m..])
  {
    forall i | 0 <= i < |lines| - m ensures RowsOf(lines)[m..][i] == RowsOf(lines[m..])[i] {
      assert lines[m..][i] == lines[m + i];
    }
  }

  lemma TailRows(lines: seq<Bytes>, n: nat)
    ensures TailRight(lines, n) <==> LastHarmless(RowsOf(lines), n, [])
  {
    if n <= |lines| {
      TailRowsLong(lines, |lines| - n);
    } else {
      RowsSound(lines);
    }
  }

  lemma TailRowsLong(lines: seq<Bytes>, m: nat)
    requires m <= |lines|
    ensures HarmlessLines(lines[m..]) <==> Harmless(RowsOf(lines)[m..], [])
  {
    RowsTail(lines, m);
    RowsSound(lines[m..]);
  }

  /** The last n lines are the forward reader's exactly when their stray CRs are harmless. */
  lemma TailRightIff(b: Bytes, n: nat)
    ensures LastN(SplitLines(b), n) == LastN(TextLines(b), n) <==> TailRight(LfLines(b), n)
  {
    SplitByLine(b);
    RowsSound(LfLines(b));
    LastShownIff(RowsOf(LfLines(b)), n, []);
    TailRows(LfLines(b), n);
  }

  /** None of the last n lines holds a stray CR. */
  predicate TailClean(lines: seq<Bytes>, n: nat) {
    forall i :: 0 <= i < |lines| && |lines| - n <= i ==> !StrayIn(lines[i])
  }

  /** Then none is harmful. */
  lemma CleanTailRight(lines: seq<Bytes>, n: nat)
    requires TailClean(lines, n)
    ensures TailRight(lines, n)
  {
    if n <= |lines| {
      var last := lines[|lines| - n..];
      assert forall i :: 0 <= i < |last| ==> last[i] == lines[|lines| - n + i];
    }
  }

  // ----- one window -----

  type Numbered = seq<(int, Bytes)>

  /** Lines first..last, 1-based and inclusive, with their numbers. */
  function Numbering(lines: seq<Bytes>, first: int, last: int): (r: Numbered)
    requires 1 <= first && last <= |lines|
    ensures |r| == if first <= last then last - first + 1 else 0
    ensures forall i :: 0 <= i < |r| ==> r[i] == (first + i, lines[first + i - 1])
  {
    seq(if first <= last then last - first + 1 else 0,
        i requires 0 <= i && first + i <= last => (first + i, lines[first + i - 1]))
  }

  function Enumerate(first: int, lines: seq<Bytes>): (r: Numbered)
    ensures |r| == |lines| && forall i :: 0 <= i < |r| ==> r[i] == (first + i, lines[i])
  {
    seq(|lines|, i requires 0 <= i < |lines| => (first + i, lines[i]))
  }

  function Min(a: int, b: int): int { if a < b then a else b }
  function Max(a: int, b: int): int { if a > b then a else b }

  /** The last line a window shows: the newest, or the one before the cursor. */
  function WindowEnd(total: nat, before: Option<int>): int {
    if before.None? then total else Min(before.value - 1, total)
  }

  /** What a window should show of a list of lines. */
  function WindowOf(lines: seq<Bytes>, limit: int, before: Option<int>): Numbered {
    var end := WindowEnd(|lines|, before);
    if end <= 0 || limit <= 0 then [] else Numbering(lines, Max(1, end - limit + 1), end)
  }

  const BLOCK: nat := 8192

  /** What the newest window shows: the last lines of split, numbered from where they start in
      a file of that many lines in total. */
  function NewestFrom(total: nat, split: seq<Bytes>, limit: int): Numbered {
    var lines := LastN(split, limit);
    Enumerate(Max(1, total - |lines| + 1), lines)
  }

  /** What a window shows whose newest lines come from split, and all others from text. */
  function WindowFrom(split: seq<Bytes>, text: seq<Bytes>, limit: int, before: Option<int>): Numbered {
    var end := WindowEnd(|text|, before);
    if end <= 0 || limit <= 0 then []
    else if before.None? then NewestFrom(|text|, split, limit)
    else WindowOf(text, limit, before)
  }

  /** What `_read_log_window` shows of a file. */
  function FileWindow(file: Bytes, limit: int, before: Option<int>): Numbered {
    WindowFrom(SplitLines(file), TextLines(file), limit, before)
  }

  lemma EnumerateSame(k: int, a: seq<Bytes>, b: seq<Bytes>)
    ensures Enumerate(k, a) == Enumerate(k, b) <==> a == b
  {
    if Enumerate(k, a) == Enumerate(k, b) {
      assert |Enumerate(k, a)| == |Enumerate(k, b)|;
      forall i | 0 <= i < |a| ensures a[i] == b[i] {
        assert Enumerate(k, a)[i] == Enumerate(k, b)[i];
      }
    }
  }

  lemma EnumerateTail(all: seq<Bytes>, k: nat)
    requires k <= |all|
    ensures Enumerate(k + 1, all[k..]) == Numbering(all, k + 1, |all|)
  {
  }

  /** The newest window of some lines are the last of them with their numbers. */
  lemma WindowTail(text: seq<Bytes>, n: nat)
    requires n > 0 && text != []
    ensures WindowOf(text, n, None) == Enumerate(Max(1, |text| - n + 1), LastN(text, n))
  {
    EnumerateTail(text, if n < |text| then |text| - n else 0);
  }

  lemma NewestIs(total: nat, split: seq<Bytes>, n: nat)
    requires 0 < total <= |split| && n > 0
    ensures LastN(split, n) != []
    ensures NewestFrom(total, split, n) == Enumerate(Max(1, total - n + 1), LastN(split, n))
  {
  }

  lemma NewestFromIff(split: seq<Bytes>, text: seq<Bytes>, n: nat)
    requires 0 < |text| <= |split| && n > 0
    ensures NewestFrom(|text|, split, n) == WindowOf(text, n, None) <==> LastN(split, n) == LastN(text, n)
  {
    NewestIs(|text|, split, n);
    WindowTail(text, n);
    EnumerateSame(Max(1, |text| - n + 1), LastN(split, n), LastN(text, n));
  }

  lemma SomeLines(file: Bytes)
    requires file != []
    ensures 0 < |TextLines(file)| <= |SplitLines(file)|
  {
    FirstLine(file);
    AgreeIff(file);
  }

  lemma WindowFromIff(split: seq<Bytes>, text: seq<Bytes>, limit: int, before: Option<int>)
    requires |text| <= |split| && (text == [] ==> split == [])
    ensures WindowFrom(split, text, limit, before) == WindowOf(text, limit, before)
        <==> before.Some? || limit <= 0 || LastN(split, limit) == LastN(text, limit)
  {
    if text != [] && limit > 0 { NewestFromIff(split, text, limit); }
  }

  /** A window is the one that the forward reader would show exactly when it is asked for by a
      cursor, or is empty, or its lines hold only harmless stray CRs. */
  lemma FileWindowIff(file: Bytes, limit: int, before: Option<int>)
    ensures FileWindow(file, limit, before) == WindowOf(TextLines(file), limit, before)
        <==> before.Some? || limit <= 0 || TailRight(LfLines(file), limit)
  {
    AgreeIff(file);
    if file != [] { SomeLines(file); }
    WindowFromIff(SplitLines(file), TextLines(file), limit, before);
    if limit > 0 { TailRightIff(file, limit); }
  }

  lemma WindowIs(lines: seq<Bytes>, limit: int, before: Option<int>)
    ensures var end := WindowEnd(|lines|, before);
            end > 0 && limit > 0 ==> WindowOf(lines, limit, before) == Numbering(lines, Max(1, end - limit + 1), end)
  {
  }

  /** `_read_log_window`: the newest page comes from the tail, any other from a forward walk. */
  method ReadLogWindow(file: Bytes, limit: int, before: Option<int>, totalLines: nat) returns (out: Numbered)
    requires totalLines == |LfLines(file)|
    ensures out == FileWindow(file, limit, before)
  {
    var end := WindowEnd(totalLines, before);
    WindowFromIs(SplitLines(file), TextLines(file), limit, before);
    if end <= 0 || limit <= 0 {
      return [];
    }
    if before.None? {
      out := NewestWindow(file, limit, end);
    } else {
      out := ForwardWindow(file, Max(1, end - limit + 1), end);
    }
  }

  lemma WindowFromIs(split: seq<Bytes>, text: seq<Bytes>, limit: int, before: Option<int>)
    ensures var end := WindowEnd(|text|, before);
            WindowFrom(split, text, limit, before) ==
              if end <= 0 || limit <= 0 then []
              else if before.None? then NewestFrom(|text|, split, limit)
              else Numbering(text, Max(1, end - limit + 1), end)
  {
    WindowIs(text, limit, before);
  }

  method NewestWindow(file: Bytes, limit: int, end: nat) returns (out: Numbered)
    requires limit > 0 && end == |LfLines(file)|
    ensures out == NewestFrom(end, SplitLines(file), limit)
  {
    var lines, _ := TailLogFile(file, limit, BLOCK);
    out := Enumerate(Max(1, end - |lines| + 1), lines);
  }

  method ForwardWindow(file: Bytes, start: int, end: int) returns (out: Numbered)
    requires 1 <= start <= end <= |LfLines(file)|
    ensures out == Numbering(TextLines(file), start, end)
  {
    out := [];
    var raw := LfLines(file);
    for index := 1 to |raw| + 1
      invariant out == Numbering(TextLines(file), start, Min(index - 1, end))
    {
      if index < start {
        continue;
      }
      if index > end {
        break;
      }
      NumberingSnoc(TextLines(file), start, index);
      out := out + [(index, RStripCr(raw[index - 1]))];
    }
  }

  lemma NumberingSnoc(lines: seq<Bytes>, first: int, last: int)
    requires 1 <= first <= last <= |lines|
    ensures Numbering(lines, first, last) == Numbering(lines, first, last - 1) + [(last, lines[last - 1])]
  {
  }

  // ----- pages -----

  datatype Page = Page(
    window: Numbered,
    totalLines: nat,
    truncated: bool,
    firstLine: Option<int>,
    lastLine: Option<int>,
    nextBefore: Option<int>)

  const LOGS_MAX_TAIL: int := 2000

  function LimitOf(tail: int): int {
    Max(1, Min(tail, LOGS_MAX_TAIL))
  }

  function PageFrom(window: Numbered, totalLines: nat): Page {
    var first := if window == [] then None else Some(window[0].0);
    var last := if window == [] then None else Some(window[|window| - 1].0);
    var older := first.Some? && first.value > 1;
    Page(window, totalLines, older, first, last, if older then first else None)
  }

  /** The page a list of lines should give. */
  function PageOf(lines: seq<Bytes>, tail: int, before: Option<int>): Page {
    PageFrom(WindowOf(lines, LimitOf(tail), before), |lines|)
  }

  /** What the fields of a page say about its lines: the numbers of the first and the last, which
      follow one another, and, when the first is not line 1, that earlier lines were omitted and
      where the page before this one ends. */
  ghost predicate Describes(p: Page) {
    && (forall i :: 0 <= i < |p.window| ==> p.window[i].0 == p.window[0].0 + i)
    && (p.firstLine.Some? <==> p.window != []) && (p.lastLine.Some? <==> p.window != [])
    && (p.window != [] ==>
          p.firstLine == Some(p.window[0].0) && p.firstLine.value >= 1
          && p.lastLine == Some(p.firstLine.value + |p.window| - 1))
    && (p.truncated <==> p.window != [] && p.window[0].0 > 1)
    && p.nextBefore == if p.truncated then p.firstLine else None
  }

  lemma EnumerateDescribes(k: int, lines: seq<Bytes>, total: nat)
    requires k >= 1
    ensures Describes(PageFrom(Enumerate(k, lines), total))
  {
  }

  /** A page of a file with that many lines, when n were asked for: at most n, and described by
      the fields; at a cursor as many as there are up to that bound, ending right before the
      cursor or, if that lies beyond the file, with the last line. */
  ghost predicate Shaped(p: Page, total: nat, n: int, before: Option<int>) {
    && |p.window| <= n && Describes(p) && p.totalLines == total
    && (before.None? && total > 0 ==> p.window != [])
    && (before.Some? ==>
          var end := if before.value > total then total else before.value - 1;
          && |p.window| == (if end < 0 then 0 else if end < n then end else n)
          && (p.window != [] ==> p.lastLine == Some(end)))
  }

  lemma LimitIs(tail: int)
    ensures LimitOf(tail) == if tail < 1 then 1 else if tail > 2000 then 2000 else tail
  {
  }

  /** No page shows more lines than were asked for, nor more than 2000; asking for less than one
      line shows one. */
  lemma PageShape(file: Bytes, tail: int, before: Option<int>)
    ensures Shaped(FilePage(file, tail, before), |LfLines(file)|,
                   if tail < 1 then 1 else if tail > 2000 then 2000 else tail, before)
  {
    LimitIs(tail);
    if before.Some? {
      CursorShape(file, LimitOf(tail), before.value);
    } else {
      NewestShape(file, LimitOf(tail));
    }
  }

  /** Without stray CRs the newest page ends with the last line. */
  lemma NewestEnds(file: Bytes, tail: int)
    requires file != [] && NoStrayCr(file)
    ensures FilePage(file, tail, None).lastLine == Some(|LfLines(file)|)
  {
    AgreeIff(file);
    SomeLines(file);
    NewestCount(|TextLines(file)|, SplitLines(file), LimitOf(tail));
  }

  lemma CursorShape(file: Bytes, n: nat, before: int)
    requires n > 0
    ensures Shaped(PageFrom(FileWindow(file, n, Some(before)), |LfLines(file)|), |LfLines(file)|, n, Some(before))
  {
    FileWindowIff(file, n, Some(before));
    WindowShape(TextLines(file), n, before);
  }

  lemma NewestShape(file: Bytes, n: nat)
    requires n > 0
    ensures Shaped(PageFrom(FileWindow(file, n, None), |LfLines(file)|), |LfLines(file)|, n, None)
  {
    if file != [] {
      SomeLines(file);
      NewestCount(|TextLines(file)|, SplitLines(file), n);
    }
  }

  lemma NumberingDescribes(lines: seq<Bytes>, first: int, last: int, total: nat)
    requires 1 <= first <= last <= |lines|
    ensures var p := PageFrom(Numbering(lines, first, last), total);
            Describes(p) && |p.window| == last - first + 1 && p.lastLine == Some(last)
  {
  }

  lemma WindowShape(lines: seq<Bytes>, n: nat, before: int)
    requires n > 0
    ensures Shaped(PageFrom(WindowOf(lines, n, Some(before)), |lines|), |lines|, n, Some(before))
  {
    var end := WindowEnd(|lines|, Some(before));
    if end > 0 { NumberingDescribes(lines, Max(1, end - n + 1), end, |lines|); }
  }

  lemma NewestCount(total: nat, split: seq<Bytes>, n: nat)
    requires n > 0 && total > 0 && split != []
    ensures var w := NewestFrom(total, split, n);
            0 < |w| <= n && Describes(PageFrom(w, total))
            && (|split| == total ==> PageFrom(w, total).lastLine == Some(total))
  {
    var lines := LastN(split, n);
    EnumerateDescribes(Max(1, total - |lines| + 1), lines, total);
  }

  const CHUNK: nat := 1048576

  /** The page that `logs_payload` gives of a file. */
  function FilePage(file: Bytes, tail: int, before: Option<int>): Page {
    PageFrom(FileWindow(file, LimitOf(tail), before), |LfLines(file)|)
  }

  /** The log part of `logs_payload`; a missing file has no lines. */
  method LogsPayload(file: Option<Bytes>, tail: int, before: Option<int>) returns (page: Page)
    ensures file.None? ==> page == PageOf([], tail, before)
    ensures file.Some? ==> page == FilePage(file.value, tail, before)
  {
    var limit := LimitOf(tail);
    var totalLines := 0;
    var window: Numbered := [];
    if file.Some? {
      totalLines := CountLogLines(file.value, CHUNK);
      window := ReadLogWindow(file.value, limit, before, totalLines);
    }
    page := PageFrom(window, totalLines);
  }

  /** The pages a client sees that starts at the given cursor and follows nextBefore. */
  function Chain(lines: seq<Bytes>, tail: int, before: Option<int>): seq<Page>
    decreases if before.None? then |lines| + 2 else Max(0, before.value)
  {
    var p := PageOf(lines, tail, before);
    if p.nextBefore.None? then [p] else [p] + Chain(lines, tail, p.nextBefore)
  }

  /** The pages put together again, the oldest first. */
  function AllShown(pages: seq<Page>): Numbered {
    if pages == [] then [] else AllShown(pages[1..]) + pages[0].window
  }

  lemma NumberingSplit(lines: seq<Bytes>, first: int, mid: int, last: int)
    requires 1 <= first <= mid <= last + 1 && last <= |lines|
    ensures Numbering(lines, first, mid - 1) + Numbering(lines, mid, last) == Numbering(lines, first, last)
  {
  }

  /** How many pages it takes to show end lines. */
  function PageCount(end: int, limit: int): nat
    requires limit > 0
  {
    if end <= limit then 1 else 1 + PageCount(end - limit, limit)
  }

  lemma {:induction false} PageCountIsCeiling(end: int, limit: int)
    requires limit > 0 && end > 0
    ensures (PageCount(end, limit) - 1) * limit < end <= PageCount(end, limit) * limit
  {
    if end > limit {
      PageCountIsCeiling(end - limit, limit);
    }
  }

  /** One page shows the last lines up to its end, and its cursor is where it starts. */
  lemma PageShows(lines: seq<Bytes>, tail: int, before: Option<int>)
    ensures var p, end, limit := PageOf(lines, tail, before), WindowEnd(|lines|, before), LimitOf(tail);
            && (end <= 0 ==> p.window == [])
            && (end > 0 ==> p.window == Numbering(lines, Max(1, end - limit + 1), end))
            && (p.nextBefore == if end > limit then Some(end - limit + 1) else None)
  {
  }

  /** Pages that follow each other down to the first line. */
  ghost predicate Descends(pages: seq<Page>, lines: seq<Bytes>, end: int, limit: int)
    requires limit > 0 && end <= |lines|
    decreases |pages|
  {
    && pages != []
    && pages[0].window == (if end <= 0 then [] else Numbering(lines, Max(1, end - limit + 1), end))
    && if end > limit then Descends(pages[1..], lines, end - limit, limit) else |pages| == 1
  }

  lemma {:induction false} ChainDescends(lines: seq<Bytes>, tail: int, before: Option<int>)
    ensures Descends(Chain(lines, tail, before), lines, WindowEnd(|lines|, before), LimitOf(tail))
    decreases if before.None? then |lines| + 2 else Max(0, before.value)
  {
    var p := PageOf(lines, tail, before);
    PageShows(lines, tail, before);
    if p.nextBefore.Some? {
      ChainDescends(lines, tail, p.nextBefore);
      assert ([p] + Chain(lines, tail, p.nextBefore))[1..] == Chain(lines, tail, p.nextBefore);
    }
  }

  lemma {:induction false} DescentTiles(pages: seq<Page>, lines: seq<Bytes>, end: int, limit: int)
    requires limit > 0 && end <= |lines| && Descends(pages, lines, end, limit)
    ensures AllShown(pages) == Numbering(lines, 1, Max(0, end)) && |pages| == PageCount(end, limit)
    decreases |pages|
  {
    if end > limit {
      DescentTiles(pages[1..], lines, end - limit, limit);
      NumberingSplit(lines, 1, end - limit + 1, end);
    } else {
      assert pages[1..] == [];
    }
  }

  /** From any cursor, the pages tile the lines before it: each line once, in order, with its
      number, in as few pages as the limit allows. */
  lemma ChainTiles(lines: seq<Bytes>, tail: int, before: Option<int>)
    ensures AllShown(Chain(lines, tail, before)) == Numbering(lines, 1, Max(0, WindowEnd(|lines|, before)))
    ensures |Chain(lines, tail, before)| == PageCount(WindowEnd(|lines|, before), LimitOf(tail))
  {
    ChainDescends(lines, tail, before);
    DescentTiles(Chain(lines, tail, before), lines, WindowEnd(|lines|, before), LimitOf(tail));
  }

  lemma ShownCons(p: Page, pages: seq<Page>)
    ensures AllShown([p] + pages) == AllShown(pages) + p.window
  {
    assert ([p] + pages)[1..] == pages;
  }

  // ----- the pages of a file -----

  /** A page of a file is the page of its lines exactly when it is asked for by a cursor, or its
      lines hold only harmless stray CRs. */
  lemma FilePageIff(file: Bytes, tail: int, before: Option<int>)
    ensures FilePage(file, tail, before) == PageOf(TextLines(file), tail, before)
        <==> before.Some? || TailRight(LfLines(file), LimitOf(tail))
  {
    FileWindowIff(file, LimitOf(tail), before);
  }

  lemma NextOf(k: int, lines: seq<Bytes>, total: nat)
    requires lines != []
    ensures PageFrom(Enumerate(k, lines), total).nextBefore == if k > 1 then Some(k) else None
  {
  }

  /** The page before it is the same in any case. */
  lemma FilePageStarts(file: Bytes, tail: int, before: Option<int>)
    ensures FilePage(file, tail, before).nextBefore == PageOf(TextLines(file), tail, before).nextBefore
  {
    AgreeIff(file);
    if before.Some? {
      FilePageIff(file, tail, before);
    } else if file != [] {
      SomeLines(file);
      NewestPageIs(SplitLines(file), TextLines(file), LimitOf(tail));
    }
  }

  lemma NewestPageIs(split: seq<Bytes>, text: seq<Bytes>, n: nat)
    requires 0 < |text| <= |split| && n > 0
    ensures PageFrom(WindowFrom(split, text, n, None), |text|).nextBefore ==
        PageFrom(WindowOf(text, n, None), |text|).nextBefore
  {
    var k := Max(1, |text| - n + 1);
    NewestIs(|text|, split, n);
    WindowTail(text, n);
    NextOf(k, LastN(split, n), |text|);
    NextOf(k, LastN(text, n), |text|);
  }

  lemma NextEarlier(lines: seq<Bytes>, tail: int, before: Option<int>)
    ensures var p := PageOf(lines, tail, before);
            p.nextBefore.Some? ==>
              1 < p.nextBefore.value <= |lines| && (before.Some? ==> p.nextBefore.value < before.value)
  {
    PageShows(lines, tail, before);
  }

  /** The pages that a client of `logs_payload` sees. */
  function FileChain(file: Bytes, tail: int, before: Option<int>): seq<Page>
    decreases if before.None? then |LfLines(file)| + 2 else Max(0, before.value)
  {
    var p := FilePage(file, tail, before);
    FilePageStarts(file, tail, before);
    NextEarlier(TextLines(file), tail, before);
    if p.nextBefore.None? then [p] else [p] + FileChain(file, tail, p.nextBefore)
  }

  lemma {:induction false} OlderPages(file: Bytes, tail: int, before: int)
    ensures FileChain(file, tail, Some(before)) == Chain(TextLines(file), tail, Some(before))
    decreases Max(0, before)
  {
    var p := PageOf(TextLines(file), tail, Some(before));
    FilePageIff(file, tail, Some(before));
    NextEarlier(TextLines(file), tail, Some(before));
    if p.nextBefore.Some? { OlderPages(file, tail, p.nextBefore.value); }
  }

  lemma SameFront(a: Numbered, x: Numbered, y: Numbered)
    ensures a + x == a + y <==> x == y
  {
    if a + x == a + y {
      assert x == (a + x)[|a|..] && y == (a + y)[|a|..];
    }
  }

  /** Starting at the newest page, the pages of a file tile its lines, each once, in order and
      with its number, exactly when the newest page holds only harmless stray CRs; there are as
      few pages as the limit allows in any case. */
  lemma FileTilesIff(file: Bytes, tail: int)
    ensures AllShown(FileChain(file, tail, None)) == Numbering(TextLines(file), 1, |LfLines(file)|)
        <==> TailRight(LfLines(file), LimitOf(tail))
    ensures |FileChain(file, tail, None)| == PageCount(|LfLines(file)|, LimitOf(tail))
  {
    var text, next := TextLines(file), PageOf(TextLines(file), tail, None).nextBefore;
    FileWindowIff(file, LimitOf(tail), None);
    FilePageStarts(file, tail, None);
    NextEarlier(text, tail, None);
    if next.None? {
      OnlyPage(file, tail);
    } else {
      OlderPages(file, tail, next.value);
      FirstPage(text, tail, FilePage(file, tail, None), next.value);
    }
  }

  lemma OnlyPage(file: Bytes, tail: int)
    requires FilePage(file, tail, None).nextBefore.None? && PageOf(TextLines(file), tail, None).nextBefore.None?
    ensures AllShown(FileChain(file, tail, None)) == FilePage(file, tail, None).window
    ensures WindowOf(TextLines(file), LimitOf(tail), None) == Numbering(TextLines(file), 1, |LfLines(file)|)
    ensures |FileChain(file, tail, None)| == PageCount(|LfLines(file)|, LimitOf(tail)) == 1
  {
    var p := FilePage(file, tail, None);
    ShownCons(p, []);
    assert [p] + [] == [p];
    PageShows(TextLines(file), tail, None);
  }

  lemma FirstPage(text: seq<Bytes>, tail: int, p: Page, next: int)
    requires PageOf(text, tail, None).nextBefore == Some(next) && 1 < next <= |text|
    ensures var pages := [p] + Chain(text, tail, Some(next));
            && (AllShown(pages) == Numbering(text, 1, |text|) <==> p.window == WindowOf(text, LimitOf(tail), None))
            && |pages| == PageCount(|text|, LimitOf(tail))
  {
    var older := Chain(text, tail, Some(next));
    PageShows(text, tail, None);
    ChainTiles(text, tail, Some(next));
    ShownCons(p, older);
    NumberingSplit(text, 1, next, |text|);
    SameFront(AllShown(older), p.window, WindowOf(text, LimitOf(tail), None));
  }

  /** In particular when no line of the newest page holds a stray CR. */
  lemma FileTiles(file: Bytes, tail: int)
    requires TailClean(LfLines(file), LimitOf(tail))
    ensures AllShown(FileChain(file, tail, None)) == Numbering(TextLines(file), 1, |LfLines(file)|)
    ensures |FileChain(file, tail, None)| == PageCount(|LfLines(file)|, LimitOf(tail))
  {
    CleanTailRight(LfLines(file), LimitOf(tail));
    FileTilesIff(file, tail);
  }

  // ----- appending -----

  /** Appending bytes does not change the lines that had already ended. */
  lemma {:induction false} EndedLinesStay(file: Bytes, more: Bytes)
    ensures CountLf(file) <= |LfLines(file)| && CountLf(file) <= |LfLines(file + more)|
    ensures LfLines(file + more)[..CountLf(file)] == LfLines(file)[..CountLf(file)]
    decreases |file|
  {
    if CountLf(file) > 0 {
      AppendRest(file, more);
      EndedLinesStay(AfterLf(file), more);
      SameFirst(file[..LfLen(file)], LfLines(AfterLf(file)), LfLines(AfterLf(file) + more), CountLf(AfterLf(file)));
    }
  }

  /** Both files begin with the same line, and what comes after it is extended in turn. */
  lemma AppendRest(file: Bytes, more: Bytes)
    requires CountLf(file) > 0
    ensures CountLf(file) == 1 + CountLf(AfterLf(file)) && |AfterLf(file)| < |file|
    ensures LfLines(file) == [file[..LfLen(file)]] + LfLines(AfterLf(file))
    ensures LfLines(file + more) == [file[..LfLen(file)]] + LfLines(AfterLf(file) + more)
  {
    SomeLf(file);
    AppendStep(file, more);
    FirstLine(file);
    FirstLine(file + more);
  }

  lemma SameFirst(first: Bytes, a: seq<Bytes>, b: seq<Bytes>, n: nat)
    requires n <= |a| && n <= |b| && a[..n] == b[..n]
    ensures ([first] + a)[..n + 1] == ([first] + b)[..n + 1]
  {
    assert ([first] + a)[..n + 1] == [first] + a[..n];
    assert ([first] + b)[..n + 1] == [first] + b[..n];
  }

  lemma SomeLf(file: Bytes)
    requires CountLf(file) > 0
    ensures LfLen(file) < |file| && CountLf(file) == 1 + CountLf(AfterLf(file))
  {
    LfEndIs(file, 0);
    if LfLen(file) == |file| {
      CountNone(file);
    }
    LfTail(file);
  }

  lemma FirstLine(file: Bytes)
    requires file != []
    ensures LfLines(file) == [file[..LfLen(file)]] + LfLines(AfterLf(file))
  {
  }

  lemma AppendStep(file: Bytes, more: Bytes)
    requires LfLen(file) < |file|
    ensures LfLen(file + more) == LfLen(file)
    ensures (file + more)[..LfLen(file)] == file[..LfLen(file)]
    ensures AfterLf(file + more) == AfterLf(file) + more
  {
    LfEndIs(file, 0);
    LfLenUnique(file + more, LfLen(file));
  }

  lemma LfTail(file: Bytes)
    requires LfLen(file) < |file|
    ensures CountLf(file) == 1 + CountLf(AfterLf(file))
  {
    var n := LfLen(file);
    LfEndIs(file, 0);
    assert AfterLf(file) == file[n + 1..];
    CountAt(file, n);
  }

  lemma NumberingStable(a: seq<Bytes>, b: seq<Bytes>, first: int, last: int)
    requires 1 <= first && last <= |a| && last <= |b|
    requires last >= 0 ==> a[..last] == b[..last]
    ensures Numbering(a, first, last) == Numbering(b, first, last)
  {
    forall i | first - 1 <= i < last ensures a[i] == b[i] {
      assert a[..last][i] == b[..last][i];
    }
  }

  /** A window depends only on the lines before its cursor. */
  lemma WindowStable(a: seq<Bytes>, b: seq<Bytes>, limit: int, before: int)
    requires before - 1 <= |a| && before - 1 <= |b|
    requires before >= 1 ==> a[..before - 1] == b[..before - 1]
    ensures WindowOf(a, limit, Some(before)) == WindowOf(b, limit, Some(before))
  {
    var end := before - 1;
    assert WindowEnd(|a|, Some(before)) == end == WindowEnd(|b|, Some(before));
    if end > 0 && limit > 0 {
      NumberingStable(a, b, Max(1, end - limit + 1), end);
    }
  }

  /** A page at a fixed cursor keeps its lines, their numbers and its cursor for older pages
      whatever is appended, if the lines before the cursor had all ended. */
  lemma PageStable(file: Bytes, more: Bytes, tail: int, before: int)
    requires before - 1 <= CountLf(file)
    ensures var p, q := FilePage(file, tail, Some(before)), FilePage(file + more, tail, Some(before));
            p == q.(totalLines := p.totalLines)
  {
    FilePageIff(file, tail, Some(before));
    FilePageIff(file + more, tail, Some(before));
    EndedLinesStay(file, more);
    LinesStable(LfLines(file), LfLines(file + more), CountLf(file), tail, before);
  }

  lemma LinesStable(a: seq<Bytes>, b: seq<Bytes>, n: nat, tail: int, before: int)
    requires before - 1 <= n <= |a| && n <= |b| && a[..n] == b[..n]
    ensures var p, q := PageOf(StripAll(a), tail, Some(before)), PageOf(StripAll(b), tail, Some(before));
            p == q.(totalLines := p.totalLines)
  {
    if before >= 1 { TextPrefix(a, b, n, before - 1); }
    WindowStable(StripAll(a), StripAll(b), LimitOf(tail), before);
  }

  lemma TextPrefix(a: seq<Bytes>, b: seq<Bytes>, n: nat, k: nat)
    requires k <= n <= |a| && n <= |b| && a[..n] == b[..n]
    ensures StripAll(a)[..k] == StripAll(b)[..k]
  {
    forall i | 0 <= i < k ensures a[i] == b[i] {
      assert a[..n][i] == b[..n][i];
    }
  }

  /** A file whose CR is stray: the tail sees two lines where the forward reader sees one. */
  lemma StrayExample()
    ensures !NoStrayCr([97, 13, 98, 10])
    ensures |SplitLines([97, 13, 98, 10])| > |LfLines([97, 13, 98, 10])|
  {
    var file: Bytes := [97, CR, 98, LF];
    assert file[1] == CR && file[2] != LF;
    AgreeIff(file);
  }

  /** A stray CR before the newest page does not matter to it. */
  lemma EarlyStrayExample()
    ensures !NoStrayCr([97, CR, 98, LF, 120, LF]) && TailRight(LfLines([97, CR, 98, LF, 120, LF]), 1)
  {
    var file: Bytes := [97, CR, 98, LF, 120, LF];
    assert file[1] == CR && file[2] != LF;
    LfLenUnique(file, 3);
    assert LfLen(file) == 3 && file[3 + 1..] == [120, LF];
    LfLenUnique([120, LF], 1);
    assert LfLen([120, LF]) == 1 && [120, LF][1 + 1..] == [];
    FirstLine(file);
    FirstLine([120, LF]);
    assert file[..3] == [97, CR, 98] && [120, LF][..1] == [120];
    assert LfLines([120, LF]) == [[120]] && LfLines(file) == [[97, CR, 98], [120]];
    CleanTailRight(LfLines(file), 1);
  }
}
