/** The preprocessing controller: input rows are collected into row groups for the downsampler, which may want to
    see one row above and below each group.  Then three groups are kept in a ring of rows with wrapped pointers. */
module RowPreprocessor {
  import opened Powers
  import opened ImageGeometry

  type Row = seq<nat>

  /** The image's row t, clamped to its first and last row. */
  function Clamped(rows: seq<Row>, t: int): Row
    requires rows != []
  {
    if t < 0 then rows[0] else if t < |rows| then rows[t] else rows[|rows| - 1]
  }

  /** What the downsampler should see of the i-th row group: with context, one row more at either end. */
  function Window(context: bool, v: nat, rows: seq<Row>, i: nat): (w: seq<Row>)
    requires rows != []
    ensures |w| == if context then v + 2 else v
  {
    if context then seq<Row>(v + 2, k requires 0 <= k < v + 2 => Clamped(rows, i * v - 1 + k))
    else seq<Row>(v, k requires 0 <= k < v => Clamped(rows, i * v + k))
  }

  // ----- the ring -----

  /** The place of row t in a ring of three groups. */
  function Slot(v: nat, t: int): (s: nat)
    requires 1 <= v <= MAX_SAMP_FACTOR
    ensures s < 3 * v
  {
    t % (3 * v)
  }

  /** Row pointers for five groups: the outer two wrap around. */
  ghost predicate Wrapped(fake: array<nat>, v: nat)
    requires 1 <= v <= MAX_SAMP_FACTOR
    reads fake
  {
    fake.Length == 5 * v && forall y :: 0 <= y < 5 * v ==> fake[y] == Slot(v, y - v)
  }

  /** Lay out the row pointers: the true rows in the middle, the last group above and the first below them. */
  method CreateContextBuffer(v: nat) returns (fake: array<nat>)
    requires 1 <= v <= MAX_SAMP_FACTOR
    ensures fresh(fake) && Wrapped(fake, v)
  {
    fake := new nat[5 * v](_ => 0);
    for i := 0 to 3 * v
      invariant forall y :: v <= y < v + i ==> fake[y] == Slot(v, y - v)
    {
      fake[v + i] := i;
      SlotOf(v, i);
    }
    for i := 0 to v
      invariant forall y :: 0 <= y < i || v <= y < 4 * v + i ==> fake[y] == Slot(v, y - v)
    {
      fake[i] := 2 * v + i;
      fake[4 * v + i] := i;
      SlotOf(v, i - v);
      SlotOf(v, 3 * v + i);
    }
  }

  lemma SlotOf(v: nat, x: int)
    requires 1 <= v <= MAX_SAMP_FACTOR && -3 * v <= x < 6 * v
    ensures Slot(v, x) == if x < 0 then x + 3 * v else if x < 3 * v then x else x - 3 * v
  {
    if v == 1 {
    } else if v == 2 {
    } else if v == 3 {
    } else {
    }
  }

  /** Moving along the ring. */
  lemma SlotPlus(v: nat, t: int, d: int)
    requires 1 <= v <= MAX_SAMP_FACTOR
    ensures Slot(v, t + d) == Slot(v, Slot(v, t) + d)
  {
    var n := 3 * v;
    var q, r := t / n, t % n;
    var p, s := (r + d) / n, (r + d) % n;
    assert t == n * q + r;
    assert r + d == n * p + s;
    assert n * (q + p) == n * q + n * p;
    Remainder(t + d, n, q + p, s);
  }

  /** Rows less than a ring apart have different places. */
  lemma SlotsDiffer(v: nat, s: int, t: int)
    requires 1 <= v <= MAX_SAMP_FACTOR && s < t < s + 3 * v
    ensures Slot(v, s) != Slot(v, t)
  {
    if v == 1 {
    } else if v == 2 {
    } else if v == 3 {
    } else {
    }
  }

  // ----- more rows -----

  /** Rows known already do not change when more follow. */
  lemma ClampedMore(rows: seq<Row>, more: seq<Row>, t: int)
    requires rows != [] && t < |rows|
    ensures Clamped(rows + more, t) == Clamped(rows, t)
  {
  }

  lemma WindowMore(context: bool, v: nat, rows: seq<Row>, more: seq<Row>, i: nat)
    requires rows != [] && i * v + v <= |rows| && (context ==> i * v + v < |rows|)
    ensures Window(context, v, rows + more, i) == Window(context, v, rows, i)
  {
    var w := Window(context, v, rows, i);
    forall k | 0 <= k < |w|
      ensures Window(context, v, rows + more, i)[k] == w[k]
    {
      ClampedMore(rows, more, if context then i * v - 1 + k else i * v + k);
    }
  }

  lemma AllWindowsMore(context: bool, v: nat, rows: seq<Row>, more: seq<Row>, groups: seq<seq<Row>>)
    requires groups != [] ==> rows != [] && (if context then |groups| * v < |rows| else |groups| * v <= |rows|)
    requires forall i :: 0 <= i < |groups| ==> rows != [] && groups[i] == Window(context, v, rows, i)
    ensures forall i :: 0 <= i < |groups| ==> rows + more != [] && groups[i] == Window(context, v, rows + more, i)
  {
    hide Window;
    forall i | 0 <= i < |groups|
      ensures rows + more != [] && groups[i] == Window(context, v, rows + more, i)
    {
      GroupsBefore(v, i, |groups|);
      WindowMore(context, v, rows, more, i);
    }
  }

  lemma GroupsBefore(v: nat, i: nat, n: nat)
    requires i < n
    ensures i * v + v <= n * v
  {
    Ordered2(v, i + 1, n);
    assert v * (i + 1) == i * v + v;
    assert v * n == n * v;
  }

  lemma Ordered2(b: nat, x: int, y: int)
    requires x <= y
    ensures b * x <= b * y
  {
  }

  class PrepController {
    const context: bool
    const height: nat             // of the image
    const v: nat                  // rows in a group
    const store: array<Row>
    const fake: array<nat>        // row pointers, with context
    var rowsToGo: nat
    var nextBufRow: nat
    var thisRowGroup: nat
    var nextBufStop: nat

    var groups: seq<seq<Row>>     // what the downsampler has seen
    ghost var rows: seq<Row>      // the image's rows taken so far
    ghost var written: nat        // rows in the buffer since the start, with those made up at the bottom
    ghost var delivered: nat      // row groups delivered, with those made up at the bottom

    ghost predicate Shape()
      reads fake
    {
      && 0 < height && 1 <= v <= MAX_SAMP_FACTOR && store.Length == 3 * v && Wrapped(fake, v)
    }

    ghost predicate Counts()
      reads `rows, `rowsToGo, `groups
    {
      && |rows| + rowsToGo == height
      && forall i :: 0 <= i < |groups| ==> rows != [] && groups[i] == Window(context, v, rows, i)
    }

    /** The rows that the next group needs are in the ring. */
    ghost predicate Held(from: int)
      requires 1 <= v <= MAX_SAMP_FACTOR && store.Length == 3 * v
      reads this, store
    {
      forall t :: from <= t < written ==> rows != [] && store[Slot(v, t)] == Clamped(rows, t)
    }

    /** With context: the ring is filled at most up to one group beyond the one that is next. */
    ghost predicate Filling()
      requires 1 <= v <= MAX_SAMP_FACTOR && store.Length == 3 * v
      reads this, store
    {
      && var base := |groups| * v;
         && delivered == |groups| && |rows| <= written && (|rows| < written ==> rowsToGo == 0)
         && (if groups == [] then 0 else base + v) <= written <= base + 2 * v
         && thisRowGroup == Slot(v, base) && (thisRowGroup == 0 || thisRowGroup == v || thisRowGroup == 2 * v)
         && nextBufStop == Slot(v, base + v) + v && nextBufStop <= 3 * v
         && nextBufRow + (base + 2 * v - written) == nextBufStop
         && (0 < written ==> Held(base - 1))
    }

    ghost predicate ContextState()
      requires 1 <= v <= MAX_SAMP_FACTOR && store.Length == 3 * v
      reads this, store
    {
      Filling() && nextBufRow < nextBufStop
    }

    /** Without context: less than one group is in the buffer, and none at the bottom. */
    ghost predicate SimpleState()
      requires 1 <= v && store.Length >= v
      reads this, store
    {
      && nextBufRow < v && |groups| <= delivered
      && (0 < rowsToGo ==> delivered == |groups| && |rows| == |groups| * v + nextBufRow)
      && (rowsToGo == 0 ==> nextBufRow == 0 && height <= |groups| * v)
      && forall k :: 0 <= k < nextBufRow ==> |groups| * v + k < |rows| && store[k] == rows[|groups| * v + k]
    }

    ghost predicate Valid()
      reads this, store, fake
    {
      Shape() && Counts() && if context then ContextState() else SimpleState()
    }

    /** Allocate the buffer and start a pass. */
    constructor (context: bool, height: nat, v: nat)
      requires 0 < height && 1 <= v <= MAX_SAMP_FACTOR
      ensures Valid() && fresh(store) && fresh(fake) && rows == [] && groups == [] && delivered == 0
      ensures this.context == context && this.height == height && this.v == v
    {
      this.context, this.height, this.v := context, height, v;
      store := new Row[3 * v](_ => []);
      var pointers := CreateContextBuffer(v);
      fake := pointers;
      rowsToGo, nextBufRow, thisRowGroup, nextBufStop := height, 0, 0, 2 * v;
      groups, rows, written, delivered := [], [], 0, 0;
      new;
      SlotOf(v, 0);
      SlotOf(v, v);
    }

    /** The color conversion is not part of this model: rows go into the buffer as they are. */
    method ColorConvert(input: seq<Row>, inRow: nat, numRows: nat)
      requires Shape() && inRow + numRows <= |input| && nextBufRow + numRows <= store.Length
      modifies store
      ensures forall k :: 0 <= k < store.Length ==>
        store[k] == if nextBufRow <= k < nextBufRow + numRows then input[inRow + (k - nextBufRow)] else old(store[k])
    {
      for i := 0 to numRows
        invariant forall k :: 0 <= k < store.Length ==>
          store[k] == if nextBufRow <= k < nextBufRow + i then input[inRow + (k - nextBufRow)] else old(store[k])
      {
        store[nextBufRow + i] := input[inRow + i];
      }
    }

    /** The buffer's next rows are the ring's. */
    lemma NextSlots(k: int)
      requires Shape() && Filling() && 0 <= k && nextBufRow + k < nextBufStop
      ensures Slot(v, written + k) == nextBufRow + k
    {
      var base := |groups| * v;
      SlotPlus(v, base + v, written + k - base - v);
      SlotOf(v, Slot(v, base + v) + (written + k - base - v));
    }

    /** Before anything is in the ring. */
    lemma NothingYet()
      requires Shape() && Counts() && context && ContextState() && rowsToGo == height
      ensures rows == [] && groups == [] && written == 0 && nextBufRow == 0 && nextBufStop == 2 * v
    {
      SlotOf(v, v);
    }

    /** Repeat the first row above the image, through the pointers that wrap around. */
    method RepeatTop()
      requires Shape()
      modifies store
      ensures forall k :: 0 <= k < store.Length ==> store[k] == if 2 * v <= k then old(store[0]) else old(store[k])
    {
      SlotOf(v, 0);
      for row := 1 to v + 1
        invariant forall k :: 0 <= k < store.Length ==>
          store[k] == if 3 * v - row < k then old(store[0]) else old(store[k])
      {
        SlotOf(v, -row);
        store[fake[v - row]] := store[fake[v]];
      }
    }

    /** The ring after rows have come in. */
    ghost function Updated(more: seq<Row>): (now: seq<Row>)
      requires Shape() && more != []
      reads this, store, fake
      ensures |now| == 3 * v
    {
      seq<Row>(3 * v, k requires 0 <= k < 3 * v reads this, store =>
        if rowsToGo == height && 2 * v <= k then more[0]
        else if nextBufRow <= k < nextBufRow + |more| then more[k - nextBufRow] else store[k])
    }

    /** The ring after rows have come in: what was needed is still there, and the new rows follow it. */
    lemma RowKept(now: seq<Row>, more: seq<Row>, t: int)
      requires Shape() && Counts() && context && ContextState()
      requires 0 < |more| <= rowsToGo && nextBufRow + |more| <= nextBufStop
      requires now == Updated(more)
      requires |groups| * v - 1 <= t < written + |more|
      ensures now[Slot(v, t)] == Clamped(rows + more, t)
    {
      if rowsToGo == height {
        NothingYet();
      }
      if t >= written {
        NextSlots(t - written);
        hide Slot;
      } else if rowsToGo == height {
        SlotOf(v, -1);
      } else {
        assert rows != [] && written == |rows|;
        ClampedMore(rows, more, t);
        NotOverwritten(t);
        assert Held(|groups| * v - 1);
        hide Slot;
      }
    }

    /** The places to be filled hold nothing that is still needed. */
    lemma NotOverwritten(t: int)
      requires Shape() && ContextState() && |groups| * v - 1 <= t < written
      ensures !(nextBufRow <= Slot(v, t) < nextBufStop)
    {
      if nextBufRow <= Slot(v, t) < nextBufStop {
        var k := Slot(v, t) - nextBufRow;
        NextSlots(k);
        SlotsDiffer(v, t, written + k);
        assert false;
      }
    }

    /** Put rows into the ring; the very first is repeated above the image. */
    method FillRing(input: seq<Row>, inRow: nat, numRows: nat)
      requires Shape() && Counts() && context && ContextState() && inRow + numRows <= |input|
      requires 0 < numRows && nextBufRow + numRows <= nextBufStop
      modifies store
      ensures store[..] == old(Updated(input[inRow..inRow + numRows]))
    {
      if rowsToGo == height {
        NothingYet();
      }
      ColorConvert(input, inRow, numRows);
      if rowsToGo == height {
        RepeatTop();
      }
    }

    /** All rows needed are there then. */
    lemma AllKept(now: seq<Row>, more: seq<Row>)
      requires Shape() && Counts() && context && ContextState()
      requires 0 < |more| <= rowsToGo && nextBufRow + |more| <= nextBufStop && now == Updated(more)
      ensures forall t :: |groups| * v - 1 <= t < written + |more| ==> now[Slot(v, t)] == Clamped(rows + more, t)
      ensures forall i :: 0 <= i < |groups| ==> groups[i] == Window(context, v, rows + more, i)
    {
      hide Updated, Window, Clamped;
      forall t | |groups| * v - 1 <= t < written + |more|
        ensures now[Slot(v, t)] == Clamped(rows + more, t)
      {
        RowKept(now, more, t);
      }
      AllWindowsMore(true, v, rows, more, groups);
    }

    /** Rows of the image come in. */
    method TakeRows(input: seq<Row>, inRow: nat, numRows: nat)
      requires Shape() && Counts() && context && ContextState() && inRow + numRows <= |input|
      requires 0 < numRows <= rowsToGo && nextBufRow + numRows <= nextBufStop
      modifies `rowsToGo, `nextBufRow, `rows, `written, store
      ensures Shape() && Counts() && Filling() && rows == old(rows) + input[inRow..inRow + numRows]
      ensures rowsToGo == old(rowsToGo) - numRows && nextBufRow == old(nextBufRow) + numRows
    {
      hide Updated, Window, Clamped, Slot;
      ghost var more := input[inRow..inRow + numRows];
      AllKept(Updated(more), more);
      FillRing(input, inRow, numRows);
      rows := rows + more;
      written := written + numRows;
      nextBufRow := nextBufRow + numRows;
      rowsToGo := rowsToGo - numRows;
      assert forall t :: |groups| * v - 1 <= t < written ==> store[Slot(v, t)] == store[..][Slot(v, t)];
    }

    /** The ring after the last row has been repeated. */
    ghost function Padded(): (now: seq<Row>)
      requires Shape()
      reads this, store, fake
      ensures |now| == 3 * v
    {
      seq<Row>(3 * v, k requires 0 <= k < 3 * v reads this, store =>
        if nextBufRow <= k < nextBufStop then store[Slot(v, nextBufRow - 1)] else store[k])
    }

    /** The row in front of the next one is the image's last. */
    lemma LastInFront()
      requires Shape() && |rows| + rowsToGo == height && context && ContextState() && rowsToGo == 0
      ensures rows != [] && store[Slot(v, nextBufRow - 1)] == rows[|rows| - 1]
    {
      NextSlots(0);
      SlotPlus(v, written, -1);
      hide Slot;
      assert Held(|groups| * v - 1);
      assert store[Slot(v, written - 1)] == Clamped(rows, written - 1);
    }

    lemma PadKept(t: int)
      requires Shape() && |rows| + rowsToGo == height && context && ContextState() && rowsToGo == 0
      requires |groups| * v - 1 <= t < |groups| * v + 2 * v
      ensures rows != [] && Padded()[Slot(v, t)] == Clamped(rows, t)
    {
      hide Slot, Wrapped;
      LastInFront();
      assert Held(|groups| * v - 1);
      if t >= written {
        NextSlots(t - written);
      } else {
        NotOverwritten(t);
      }
    }

    lemma PadAll()
      requires Shape() && |rows| + rowsToGo == height && context && ContextState() && rowsToGo == 0
      ensures rows != [] && forall t :: |groups| * v - 1 <= t < |groups| * v + 2 * v ==>
        Padded()[Slot(v, t)] == Clamped(rows, t)
    {
      LastInFront();
      hide Padded, Slot, Clamped;
      forall t | |groups| * v - 1 <= t < |groups| * v + 2 * v
        ensures Padded()[Slot(v, t)] == Clamped(rows, t)
      {
        PadKept(t);
      }
    }

    /** Rows from..to become copies of the one before them. */
    method ExpandBottomEdge(from: nat, to: nat)
      requires Shape() && from < to <= 3 * v
      modifies store
      ensures forall k :: 0 <= k < store.Length ==>
        store[k] == if from <= k < to then old(store[Slot(v, from - 1)]) else old(store[k])
    {
      SlotOf(v, from - 1);
      for row := from to to
        invariant forall k :: 0 <= k < store.Length ==>
          store[k] == if from <= k < row then old(store[Slot(v, from - 1)]) else old(store[k])
      {
        SlotOf(v, row);
        store[fake[v + row]] := store[fake[v + from - 1]];
      }
    }

    method FillBottom()
      requires Shape() && nextBufRow < nextBufStop <= 3 * v
      modifies store
      ensures store[..] == old(Padded())
    {
      ExpandBottomEdge(nextBufRow, nextBufStop);
    }

    /** At the bottom of the image the last row is repeated until the ring is full enough. */
    method PadRing()
      requires Shape() && Counts() && context && ContextState() && rowsToGo == 0
      modifies `nextBufRow, `written, store
      ensures Shape() && Counts() && Filling() && nextBufRow == nextBufStop
      ensures rowsToGo == old(rowsToGo)
    {
      hide Slot, Window, Clamped, Wrapped, Padded;
      ghost var now := Padded();
      PadAll();
      FillBottom();
      nextBufRow := nextBufStop;
      written := |groups| * v + 2 * v;
      assert forall t :: |groups| * v - 1 <= t < written ==> store[Slot(v, t)] == store[..][Slot(v, t)];
    }

    /** One row of the window, through the row pointers. */
    lemma WindowRow(k: nat)
      requires Shape() && Counts() && context && Filling() && nextBufRow == nextBufStop && k < v + 2
      ensures rows != [] && v + thisRowGroup - 1 + k < fake.Length && fake[v + thisRowGroup - 1 + k] < store.Length
      ensures store[fake[v + thisRowGroup - 1 + k]] == Window(true, v, rows, |groups|)[k]
    {
      var base := |groups| * v;
      SlotPlus(v, base, k - 1);
      assert Held(base - 1);
      hide Slot;
      assert fake[v + thisRowGroup - 1 + k] == Slot(v, thisRowGroup - 1 + k) == Slot(v, base - 1 + k);
      assert store[Slot(v, base - 1 + k)] == Clamped(rows, base - 1 + k);
    }

    /** What the downsampler sees of the next group. */
    method ReadWindow() returns (seen: seq<Row>)
      requires Shape() && Counts() && context && Filling() && nextBufRow == nextBufStop
      ensures rows != [] && seen == Window(true, v, rows, |groups|)
    {
      hide Window, Slot, Wrapped, Counts, Filling;
      WindowRow(0);
      seen := [];
      for k := 0 to v + 2
        invariant |seen| == k && forall j :: 0 <= j < k ==> seen[j] == Window(true, v, rows, |groups|)[j]
      {
        WindowRow(k);
        seen := seen + [store[fake[v + thisRowGroup - 1 + k]]];
      }
    }

    /** Downsample the next group and move on along the ring. */
    method Downsample()
      requires Shape() && Counts() && context && Filling() && nextBufRow == nextBufStop
      modifies `groups, `delivered, `thisRowGroup, `nextBufRow, `nextBufStop
      ensures Shape() && Counts() && ContextState() && |groups| == old(|groups|) + 1 && delivered == old(delivered) + 1
    {
      hide Window, Slot, Wrapped, Clamped;
      var seen := ReadWindow();
      NextGroup(v, |groups| * v, |groups|);
      groups := groups + [seen];
      delivered := delivered + 1;
      thisRowGroup := thisRowGroup + v;
      if thisRowGroup >= 3 * v {
        thisRowGroup := 0;
      }
      if nextBufRow >= 3 * v {
        nextBufRow := 0;
      }
      nextBufStop := nextBufRow + v;
    }
  
    /** Process rows with context: until the groups asked for are delivered, or more rows are needed. */
    method PreProcessContext(input: seq<Row>, inRowCtr0: nat, inRowsAvail: nat, outCtr0: nat, outAvail: nat)
      returns (inRowCtr: nat, outCtr: nat)
      requires Valid() && context && outCtr0 <= outAvail && inRowsAvail <= |input|
      requires inRowsAvail - inRowCtr0 <= rowsToGo
      modifies this, store
      ensures Valid() && inRowCtr0 <= inRowCtr && outCtr0 <= outCtr <= outAvail
      ensures (inRowCtr <= inRowsAvail || inRowCtr == inRowCtr0)
      ensures rows == old(rows) + Part(input, inRowCtr0, inRowCtr) && delivered == old(delivered) + (outCtr - outCtr0)
      ensures outCtr < outAvail ==> inRowCtr >= inRowsAvail && 0 < rowsToGo
      ensures rowsToGo == old(rowsToGo) - (inRowCtr - inRowCtr0)
      ensures inRowCtr == inRowCtr0 && 0 < rowsToGo ==> outCtr == outCtr0
    {
      hide Wrapped, Counts, Filling, Part;
      PartNone(input, inRowCtr0);
      inRowCtr, outCtr := inRowCtr0, outCtr0;
      while outCtr < outAvail
        invariant Shape() && Counts() && ContextState()
        invariant inRowCtr0 <= inRowCtr && outCtr0 <= outCtr <= outAvail
        invariant (inRowCtr <= inRowsAvail || inRowCtr == inRowCtr0)
        invariant rows == old(rows) + Part(input, inRowCtr0, inRowCtr)
        invariant delivered == old(delivered) + (outCtr - outCtr0)
        invariant rowsToGo == old(rowsToGo) - (inRowCtr - inRowCtr0)
        invariant inRowCtr == inRowCtr0 && 0 < rowsToGo ==> outCtr == outCtr0
        decreases outAvail - outCtr, inRowsAvail - inRowCtr
      {
        if inRowCtr < inRowsAvail {
          var inrows := inRowsAvail - inRowCtr;
          var numrows := nextBufStop - nextBufRow;
          if inrows < numrows {
            numrows := inrows;
          }
          TakeRows(input, inRowCtr, numrows);
          PartMore(input, inRowCtr0, inRowCtr, numrows);
          inRowCtr := inRowCtr + numrows;
        } else {
          if rowsToGo != 0 {
            break;
          }
          if nextBufRow < nextBufStop {
            PadRing();
          }
        }
        if nextBufRow == nextBufStop {
          Downsample();
          outCtr := outCtr + 1;
        }
      }
    }
  
    // ----- without context -----

    /** The buffer is filled with `more` rows of the group that is next. */
    ghost predicate Collected()
      requires 1 <= v && store.Length >= v
      reads this, store
    {
      && nextBufRow <= v && delivered == |groups| && |rows| == |groups| * v + nextBufRow
      && forall k :: 0 <= k < nextBufRow ==> store[k] == rows[|groups| * v + k]
    }

    /** Rows of the image come in. */
    method CollectRows(input: seq<Row>, inRow: nat, numRows: nat)
      requires Shape() && Counts() && !context && SimpleState() && 0 < rowsToGo && inRow + numRows <= |input|
      requires 0 < numRows <= rowsToGo && nextBufRow + numRows <= v
      modifies `rowsToGo, `nextBufRow, `rows, store
      ensures Shape() && Counts() && Collected() && rows == old(rows) + input[inRow..inRow + numRows]
      ensures rowsToGo == old(rowsToGo) - numRows && nextBufRow == old(nextBufRow) + numRows
    {
      hide Window, Clamped, Wrapped;
      ghost var more := input[inRow..inRow + numRows];
      AllWindowsMore(false, v, rows, more, groups);
      ColorConvert(input, inRow, numRows);
      rows := rows + more;
      nextBufRow := nextBufRow + numRows;
      rowsToGo := rowsToGo - numRows;
    }

    /** At the bottom of the image the last row fills the group up. */
    method FillGroup()
      requires Shape() && Counts() && !context && Collected() && 0 < nextBufRow < v && rowsToGo == 0
      modifies `nextBufRow, store
      ensures Shape() && Counts() && nextBufRow == v && delivered == |groups| && |groups| * v < |rows|
      ensures forall k :: 0 <= k < v ==> store[k] == Clamped(rows, |groups| * v + k)
    {
      hide Window, Wrapped;
      var n := nextBufRow;
      for row := n to v
        invariant forall k :: 0 <= k < n ==> store[k] == old(store[k])
        invariant forall k :: n <= k < row ==> store[k] == old(store[n - 1])
      {
        store[row] := store[n - 1];
      }
      nextBufRow := v;
    }

    /** Downsample the group collected. */
    method DownsampleGroup()
      requires Shape() && Counts() && !context && nextBufRow == v && rows != []
      requires forall k :: 0 <= k < v ==> store[k] == Clamped(rows, |groups| * v + k)
      modifies `groups, `delivered, `nextBufRow
      ensures Shape() && Counts() && nextBufRow == 0 && |groups| == old(|groups|) + 1 && delivered == old(delivered) + 1
    {
      hide Clamped, Wrapped;
      ghost var w := Window(false, v, rows, |groups|);
      assert store[..v] == w;
      hide Window;
      groups := groups + [store[..v]];
      delivered := delivered + 1;
      nextBufRow := 0;
    }

    /** Process rows without context; at the bottom of the image the output is made up to a full row of MCUs. */
    method PreProcessData(input: seq<Row>, inRowCtr0: nat, inRowsAvail: nat, outCtr0: nat, outAvail: nat)
      returns (inRowCtr: nat, outCtr: nat)
      requires Valid() && !context && outCtr0 <= outAvail && inRowsAvail <= |input|
      requires inRowsAvail - inRowCtr0 <= rowsToGo
      modifies this, store
      ensures Valid() && inRowCtr0 <= inRowCtr && outCtr0 <= outCtr <= outAvail
      ensures (inRowCtr <= inRowsAvail || inRowCtr == inRowCtr0)
      ensures rows == old(rows) + Part(input, inRowCtr0, inRowCtr) && delivered == old(delivered) + (outCtr - outCtr0)
      ensures outCtr < outAvail ==> inRowCtr >= inRowsAvail && (0 < rowsToGo || old(rowsToGo) == 0)
      ensures rowsToGo == old(rowsToGo) - (inRowCtr - inRowCtr0)
      ensures inRowCtr == inRowCtr0 && 0 < rowsToGo ==> outCtr == outCtr0
    {
      hide Wrapped, Counts, Collected, Part;
      PartNone(input, inRowCtr0);
      inRowCtr, outCtr := inRowCtr0, outCtr0;
      while inRowCtr < inRowsAvail && outCtr < outAvail
        invariant Shape() && Counts() && SimpleState()
        invariant inRowCtr0 <= inRowCtr && outCtr0 <= outCtr <= outAvail
        invariant (inRowCtr <= inRowsAvail || inRowCtr == inRowCtr0)
        invariant rows == old(rows) + Part(input, inRowCtr0, inRowCtr)
        invariant delivered == old(delivered) + (outCtr - outCtr0)
        invariant rowsToGo == old(rowsToGo) - (inRowCtr - inRowCtr0)
        invariant outCtr < outAvail ==> 0 < rowsToGo || old(rowsToGo) == 0
        invariant inRowCtr == inRowCtr0 ==> outCtr == outCtr0
        decreases inRowsAvail - inRowCtr
      {
        var inrows := inRowsAvail - inRowCtr;
        var numrows := v - nextBufRow;
        if inrows < numrows {
          numrows := inrows;
        }
        CollectRows(input, inRowCtr, numrows);
        PartMore(input, inRowCtr0, inRowCtr, numrows);
        inRowCtr := inRowCtr + numrows;
        var n := EmptyGroup();
        outCtr := outCtr + n;
        if rowsToGo == 0 && outCtr < outAvail {
          delivered := delivered + (outAvail - outCtr);
          outCtr := outAvail;
          break;
        }
      }
    }

    /** If the group is complete, or the image at its bottom, downsample it. */
    method EmptyGroup() returns (n: nat)
      requires Shape() && Counts() && !context && Collected() && 0 < nextBufRow
      modifies `groups, `delivered, `nextBufRow, store
      ensures Shape() && Counts() && SimpleState() && n <= 1 && (rowsToGo == 0 ==> n == 1)
      ensures delivered == old(delivered) + n
    {
      hide Window, Wrapped;
      n := 0;
      if rowsToGo == 0 && nextBufRow < v {
        FillGroup();
      }
      if nextBufRow == v {
        NextGroups(v, |groups|);
        DownsampleGroup();
        n := 1;
      }
    }
  
    /** Process rows: until the groups asked for are delivered, or more rows are needed. */
    method PreProcess(input: seq<Row>, inRowCtr0: nat, inRowsAvail: nat, outCtr0: nat, outAvail: nat)
      returns (inRowCtr: nat, outCtr: nat)
      requires Valid() && outCtr0 <= outAvail && inRowsAvail <= |input| && inRowsAvail - inRowCtr0 <= rowsToGo
      modifies this, store
      ensures Valid() && inRowCtr0 <= inRowCtr && outCtr0 <= outCtr <= outAvail
      ensures (inRowCtr <= inRowsAvail || inRowCtr == inRowCtr0)
      ensures rows == old(rows) + Part(input, inRowCtr0, inRowCtr) && delivered == old(delivered) + (outCtr - outCtr0)
      ensures outCtr < outAvail ==> inRowCtr >= inRowsAvail && (0 < rowsToGo || (!context && old(rowsToGo) == 0))
      ensures rowsToGo == old(rowsToGo) - (inRowCtr - inRowCtr0)
      ensures inRowCtr == inRowCtr0 && 0 < rowsToGo ==> outCtr == outCtr0
    {
      hide Valid;
      if context {
        inRowCtr, outCtr := PreProcessContext(input, inRowCtr0, inRowsAvail, outCtr0, outAvail);
      } else {
        inRowCtr, outCtr := PreProcessData(input, inRowCtr0, inRowsAvail, outCtr0, outAvail);
      }
    }
  }

  lemma NextGroups(v: nat, n: nat)
    ensures (n + 1) * v == n * v + v
  {
  }

  /** Elements from..to of a sequence, if there are any. */
  function Part<T>(s: seq<T>, from: nat, to: nat): seq<T> {
    if from < to <= |s| then s[from..to] else []
  }

  lemma PartNone<T>(s: seq<T>, from: nat)
    ensures Part(s, from, from) == []
  {
  }

  lemma PartMore<T>(s: seq<T>, from: nat, to: nat, n: nat)
    requires from <= to && to + n <= |s|
    ensures Part(s, from, to + n) == Part(s, from, to) + s[to..to + n]
  {
  }

  /** Places one group further. */
  lemma NextGroup(v: nat, base: nat, i: nat)
    requires 1 <= v <= MAX_SAMP_FACTOR && base == i * v
    ensures (i + 1) * v == base + v
    ensures Slot(v, base + v) == if Slot(v, base) + v >= 3 * v then Slot(v, base) + v - 3 * v else Slot(v, base) + v
    ensures Slot(v, base + 2 * v)
      == if Slot(v, base + v) + v >= 3 * v then Slot(v, base + v) + v - 3 * v else Slot(v, base + v) + v
  {
    SlotPlus(v, base, v);
    SlotOf(v, Slot(v, base) + v);
    SlotPlus(v, base + v, v);
    SlotOf(v, Slot(v, base + v) + v);
  }
}
