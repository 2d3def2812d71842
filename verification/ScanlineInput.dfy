/** Scanlines on their way into the compressor: the main controller, and the application's view of it.  When the
    compressor suspends, the last row is pretended not to have been taken; still every row is processed exactly
    once and in order. */
module ScanlineInput {
  import opened ImageGeometry
  import opened RowPreprocessor

  /** The coefficient controller as the main controller sees it: it takes a full row of MCUs or suspends. */
  class RowSink {
    var taken: nat
    var answers: seq<bool>

    constructor (answers: seq<bool>)
      ensures taken == 0 && this.answers == answers
    {
      taken, this.answers := 0, answers;
    }

    method CompressData() returns (ok: bool)
      modifies this
      ensures ok <==> old(answers) == [] || old(answers)[0]
      ensures taken == if ok then old(taken) + 1 else old(taken)
      ensures answers == if old(answers) == [] then [] else old(answers)[1..]
    {
      ok := answers == [] || answers[0];
      if ok {
        taken := taken + 1;
      }
      if answers != [] {
        answers := answers[1..];
      }
    }
  }

  function One(b: bool): nat { if b then 1 else 0 }

  /** The number of rows of MCUs, worked out from the scaled height in samples, is that of the source image in
      rows: m row groups of v rows make one row of MCUs. */
  lemma RowsOfMcus(height: nat, blockSize: nat, m: nat, v: nat)
    requires 0 < height && 0 < blockSize && 0 < m && 0 < v
    ensures 0 < height * blockSize && 0 < v * blockSize
    ensures var scaled := CeilDiv(height * blockSize, m);
      && 0 < scaled
      && var total := CeilDiv(scaled, v * blockSize);
         0 < total && (total - 1) * (m * v) < height <= total * (m * v)
  {
    Product(height, blockSize);
    Product(v, blockSize);
    CeilDivBounds(height * blockSize, m);
    var scaled := CeilDiv(height * blockSize, m);
    CeilDivBounds(scaled, v * blockSize);
    var total := CeilDiv(scaled, v * blockSize);
    Ordered(m, scaled, v * blockSize * total);
    Ordered(m, v * blockSize * (total - 1), scaled - 1);
    Regroup(m, v, blockSize, total);
    Regroup(m, v, blockSize, total - 1);
    Cancel(height, total * (m * v), blockSize);
    CancelStrict((total - 1) * (m * v), height, blockSize);
  }

  lemma Regroup(m: int, v: int, b: int, t: int)
    ensures m * (v * b * t) == t * (m * v) * b
  {
    assert m * (v * b * t) == m * (v * (b * t));
    assert m * (v * (b * t)) == (m * v) * (b * t);
    assert (m * v) * (b * t) == t * (m * v) * b;
  }

  lemma Cancel(x: int, y: int, b: int)
    requires b > 0 && x * b <= y * b
    ensures x <= y
  {
  }

  lemma CancelStrict(x: int, y: int, b: int)
    requires b > 0 && x * b < y * b
    ensures x < y
  {
  }

  class MainController {
    const prep: PrepController
    const sink: RowSink
    const groupsPerRow: nat       // row groups in a row of MCUs
    const totalRows: nat          // rows of MCUs
    var curImcuRow: nat
    var rowgroupCtr: nat
    var suspended: bool

    /** The image has that many rows of MCUs. */
    ghost predicate Shape()
    {
      && 0 < groupsPerRow && 0 < totalRows
      && (totalRows - 1) * (groupsPerRow * prep.v) < prep.height <= totalRows * (groupsPerRow * prep.v)
    }

    /** The row groups delivered are those of the rows of MCUs taken and of the one being collected. */
    ghost predicate Accounted()
      reads this, prep, sink
    {
      prep.delivered == curImcuRow * groupsPerRow + rowgroupCtr && sink.taken == curImcuRow
    }

    ghost predicate Valid()
      reads this, prep, prep.store, prep.fake, sink
    {
      && Shape() && prep.Valid() && Accounted() && curImcuRow <= totalRows
      && (if suspended then rowgroupCtr == groupsPerRow && curImcuRow < totalRows && prep.rows != []
          else rowgroupCtr < groupsPerRow && (curImcuRow < totalRows ==> 0 < prep.rowsToGo))
      && (curImcuRow == totalRows ==> rowgroupCtr == 0)
    }

    constructor (prep: PrepController, sink: RowSink, groupsPerRow: nat, totalRows: nat)
      requires prep.Valid() && prep.rows == [] && prep.delivered == 0 && sink.taken == 0 && 0 < groupsPerRow
      requires 0 < totalRows
      requires (totalRows - 1) * (groupsPerRow * prep.v) < prep.height <= totalRows * (groupsPerRow * prep.v)
      ensures Valid() && this.prep == prep && this.sink == sink && !suspended && curImcuRow == 0
    {
      this.prep, this.sink, this.groupsPerRow, this.totalRows := prep, sink, groupsPerRow, totalRows;
      curImcuRow, rowgroupCtr, suspended := 0, 0, false;
    }

    /** With all rows of MCUs delivered, all rows of the image have been taken. */
    lemma AllTaken()
      requires Shape() && prep.Valid() && prep.delivered >= totalRows * groupsPerRow
      ensures prep.rowsToGo == 0
    {
      Associate(totalRows, groupsPerRow, prep.v);
      AtMost(totalRows * groupsPerRow, prep.delivered, prep.v);
      AtLeastOne(totalRows, groupsPerRow);
    }

    /** At the start of a row of MCUs there are still rows of the image to come, unless they are in the ring. */
    lemma MoreToCome()
      requires Shape() && prep.Valid() && !prep.context && curImcuRow < totalRows
      requires prep.delivered == curImcuRow * groupsPerRow
      ensures 0 < prep.rowsToGo
    {
      if prep.rowsToGo == 0 {
        Associate(curImcuRow, groupsPerRow, prep.v);
        AtMost(|prep.groups|, prep.delivered, prep.v);
        AtMost(curImcuRow, totalRows - 1, groupsPerRow * prep.v);
        assert false;
      }
    }

    /** What a call has done so far: the rows from `off` on up to the one counted, or pretended not to be, are
        taken. */
    ghost predicate Progress(input: seq<Row>, was: seq<Row>, toGo: nat, off: nat, inRowCtr: nat)
      reads `suspended, prep`rows, prep`rowsToGo
    {
      && off <= inRowCtr + One(suspended)
      && prep.rows == was + Part(input, off, inRowCtr + One(suspended))
      && prep.rowsToGo + inRowCtr + One(suspended) == toGo + off
      && |prep.rows| == |was| + (inRowCtr + One(suspended) - off)
    }

    lemma StartCounting(input: seq<Row>)
      ensures Progress(input, prep.rows, prep.rowsToGo, One(suspended), 0)
    {
      assert prep.rows + [] == prep.rows;
    }

    /** Rows taken by the preprocessor are progress. */
    lemma MoreProgress(input: seq<Row>, was: seq<Row>, toGo: nat, off: nat, had: seq<Row>, left: nat, from: nat,
        to: nat)
      requires !suspended && off <= from <= to && (to <= |input| || to == from)
      requires had == was + Part(input, off, from) && left + from == toGo + off && |had| == |was| + (from - off)
      requires prep.rows == had + Part(input, from, to) && prep.rowsToGo == left - (to - from)
      ensures Progress(input, was, toGo, off, to)
    {
      PartJoin(input, off, from, to);
      PartLength(input, from, to);
      assert was + Part(input, off, from) + Part(input, from, to)
        == was + (Part(input, off, from) + Part(input, from, to));
    }

    lemma StillAccounted(delivered: nat, groups: nat)
      requires delivered == curImcuRow * groupsPerRow + groups && sink.taken == curImcuRow
      requires prep.delivered == delivered + (rowgroupCtr - groups)
      ensures Accounted()
    {
    }

    /** Fill the buffer, as far as rows go. */
    method Collect(input: seq<Row>, inRowCtr0: nat, ghost was: seq<Row>, ghost toGo: nat, ghost off: nat)
      returns (inRowCtr: nat)
      requires Shape() && prep.Valid() && Accounted() && curImcuRow < totalRows && rowgroupCtr < groupsPerRow
      requires !suspended
      requires (prep.rowsToGo == 0 ==> rowgroupCtr == 0) && Progress(input, was, toGo, off, inRowCtr0)
      requires |input| <= toGo + off
      requires inRowCtr0 == 0 ==> 0 < prep.rowsToGo
      modifies `rowgroupCtr, prep, prep.store
      ensures prep.Valid() && Accounted() && rowgroupCtr <= groupsPerRow && Progress(input, was, toGo, off, inRowCtr)
      ensures rowgroupCtr == groupsPerRow ==> inRowCtr >= 1
      ensures rowgroupCtr < groupsPerRow ==> inRowCtr >= |input| && 0 < prep.rowsToGo
    {
      if prep.rowsToGo == 0 && !prep.context {
        MoreToCome();
      }
      ghost var had, left, d, g := prep.rows, prep.rowsToGo, prep.delivered, rowgroupCtr;
      assert d == curImcuRow * groupsPerRow + g;
      hide prep.Valid, Shape, Part, Progress;
      inRowCtr, rowgroupCtr := prep.PreProcess(input, inRowCtr0, |input|, rowgroupCtr, groupsPerRow);
      MoreProgress(input, was, toGo, off, had, left, inRowCtr0, inRowCtr);
      StillAccounted(d, g);
    }

    /** Send a full row of MCUs to the compressor.  If it suspends, the last row counted is taken back, once. */
    method Send(input: seq<Row>, inRowCtr0: nat, ghost was: seq<Row>, ghost toGo: nat, ghost off: nat)
      returns (ok: bool, inRowCtr: nat)
      requires Accounted() && curImcuRow < totalRows && rowgroupCtr == groupsPerRow && (!suspended ==> inRowCtr0 >= 1)
      requires Progress(input, was, toGo, off, inRowCtr0)
      modifies this, sink
      ensures Accounted() && Progress(input, was, toGo, off, inRowCtr)
      ensures ok ==> !suspended && rowgroupCtr == 0 && curImcuRow == old(curImcuRow) + 1 && inRowCtr >= 1
      ensures !ok ==> suspended && rowgroupCtr == groupsPerRow && curImcuRow == old(curImcuRow)
    {
      inRowCtr := inRowCtr0;
      ok := sink.CompressData();
      if !ok {
        if !suspended {
          inRowCtr := inRowCtr - 1;
          suspended := true;
        }
        return;
      }
      if suspended {
        inRowCtr := inRowCtr + 1;
        suspended := false;
      }
      rowgroupCtr := 0;
      NextRow(curImcuRow, groupsPerRow);
      curImcuRow := curImcuRow + 1;
    }

    /** Process rows.  The count returned is one too small while suspended; it is never taken below zero. */
    method ProcessData(input: seq<Row>) returns (inRowCtr: nat)
      requires Valid() && |input| <= prep.rowsToGo + One(suspended)
      modifies this, prep, prep.store, sink
      ensures Valid() && old(curImcuRow) <= curImcuRow
      ensures Progress(input, old(prep.rows), old(prep.rowsToGo), old(One(suspended)), inRowCtr)
      ensures !suspended ==> curImcuRow == totalRows || inRowCtr >= |input|
    {
      assert 0 < groupsPerRow;
      hide prep.Valid, Shape, Progress;
      StartCounting(input);
      ghost var was, toGo, off := prep.rows, prep.rowsToGo, One(suspended);
      inRowCtr := 0;
      while curImcuRow < totalRows
        invariant Shape() && prep.Valid() && Accounted() && old(curImcuRow) <= curImcuRow <= totalRows
        invariant Progress(input, was, toGo, off, inRowCtr)
        invariant if suspended then rowgroupCtr == groupsPerRow && curImcuRow < totalRows && prep.rows != []
                  else rowgroupCtr < groupsPerRow && (prep.rowsToGo == 0 ==> rowgroupCtr == 0)
        invariant curImcuRow < totalRows && inRowCtr == 0 && !suspended ==> 0 < prep.rowsToGo
        invariant curImcuRow == totalRows ==> rowgroupCtr == 0
        decreases totalRows - curImcuRow
      {
        if rowgroupCtr < groupsPerRow {
          inRowCtr := Collect(input, inRowCtr, was, toGo, off);
        }
        if rowgroupCtr != groupsPerRow {
          return;
        }
        var ok;
        ok, inRowCtr := Send(input, inRowCtr, was, toGo, off);
        if !ok {
          return;
        }
      }
    }
  }

  /** The application's side: it passes scanlines from the one counted next. */
  class Compressor {
    const main: MainController
    const imageHeight: nat
    var nextScanline: nat

    ghost const image: seq<Row>   // what the application means to write

    ghost predicate Valid()
      reads this, main, main.prep, main.prep.store, main.prep.fake, main.sink
    {
      && main.Valid() && imageHeight == main.prep.height == |image|
      && nextScanline + One(main.suspended) == |main.prep.rows|
      && main.prep.rows == image[..|main.prep.rows|]
    }

    constructor (main: MainController, ghost image: seq<Row>)
      requires main.Valid() && !main.suspended && main.prep.rows == [] && |image| == main.prep.height
      ensures Valid() && this.main == main && this.image == image && nextScanline == 0
    {
      this.main, this.image := main, image;
      imageHeight, nextScanline := main.prep.height, 0;
    }

    /** Write scanlines; those beyond the image are ignored.  The application goes on from the count, so after a
        suspension it passes the last row again. */
    method WriteScanlines(scanlines: seq<Row>) returns (rowCtr: nat)
      requires Valid()
      requires forall k :: 0 <= k < |scanlines| && nextScanline + k < |image| ==>
        scanlines[k] == image[nextScanline + k]
      modifies this, main, main.prep, main.prep.store, main.sink
      ensures Valid() && nextScanline == old(nextScanline) + rowCtr
      ensures nextScanline <= imageHeight && old(main.curImcuRow) <= main.curImcuRow
      ensures !main.suspended ==>
        || main.curImcuRow == main.totalRows
        || nextScanline >= |image|
        || nextScanline >= old(nextScanline) + |scanlines|
    {
      HeightCounted();
      hide main.prep.Valid, main.Shape, Part, main.Accounted;
      var rowsLeft := imageHeight - nextScanline;
      var numLines := |scanlines|;
      if numLines > rowsLeft {
        numLines := rowsLeft;
      }
      ghost var off, was := One(main.suspended), main.prep.rows;
      rowCtr := main.ProcessData(scanlines[..numLines]);
      RowsInOrder(image, was, scanlines[..numLines], nextScanline, off, rowCtr + One(main.suspended));
      nextScanline := nextScanline + rowCtr;
      HeightKept();
    }

    lemma HeightCounted()
      requires Valid()
      ensures |main.prep.rows| + main.prep.rowsToGo == imageHeight
    {
    }

    lemma HeightKept()
      requires main.Valid() && imageHeight == main.prep.height
      ensures |main.prep.rows| <= imageHeight
    {
    }

    /** The count reaches the image's height exactly when the compressor has taken the last row of MCUs; every row
        of the image has then been processed, once and in order. */
    lemma Complete()
      requires Valid()
      ensures nextScanline <= imageHeight
      ensures nextScanline == imageHeight <==> main.curImcuRow == main.totalRows
      ensures nextScanline == imageHeight ==> main.prep.rows == image && main.sink.taken == main.totalRows
    {
      if main.curImcuRow == main.totalRows {
        main.AllTaken();
      }
    }
  }

  /** Rows appended to a prefix of the image make a longer prefix. */
  lemma RowsInOrder(image: seq<Row>, was: seq<Row>, lines: seq<Row>, next: nat, off: nat, to: nat)
    requires |was| <= |image| && was == image[..|was|] && |was| == next + off && off <= to && next + |lines| <= |image|
    requires forall k :: 0 <= k < |lines| ==> lines[k] == image[next + k]
    ensures var rows := was + Part(lines, off, to);
      |rows| <= |image| && rows == image[..|rows|]
  {
  }

  lemma PartJoin<T>(s: seq<T>, from: nat, mid: nat, to: nat)
    requires from <= mid <= to && (to <= |s| || to == mid)
    ensures Part(s, from, mid) + Part(s, mid, to) == Part(s, from, to)
  {
  }

  lemma PartLength<T>(s: seq<T>, from: nat, to: nat)
    requires from <= to && (to <= |s| || to == from)
    ensures |Part(s, from, to)| == to - from
  {
  }

  lemma NextRow(x: nat, y: nat)
    ensures (x + 1) * y == x * y + y
  {
  }

  lemma Associate(x: nat, y: nat, z: nat)
    ensures x * y * z == x * (y * z)
  {
  }

  lemma AtMost(x: nat, y: nat, v: nat)
    requires x <= y
    ensures x * v <= y * v
  {
  }

  lemma AtLeastOne(x: nat, y: nat)
    requires 0 < x && 0 < y
    ensures 0 < x * y
  {
  }
}
