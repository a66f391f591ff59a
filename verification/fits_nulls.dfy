/** `ffpcnuj`: writing a column where every input equal to a chosen null value
    must become the column's null (the TNULLn convention of the FITS Standard
    4.0, section 7.3.2). The input is cut into alternating runs of good values
    and of null values; good runs are written with `ffpcluj`, null runs are
    filled with `ffpclu`. Each run's start is turned from an absolute element
    number into a (row, element) pair. The statuses the two writers return
    are an input of the model. */
module FitsNulls {
  import opened FitsConvert
  import opened FitsColumn
  import opened IntArith

  /** A run of `len` consecutive inputs from `start`, all good or all null. */
  datatype Run = Run(good: bool, start: nat, len: nat)

  /** Run r is non-empty, fits the input, and is good exactly where the input
      differs from the null value. */
  ghost predicate RunHolds(values: seq<ULong>, nul: ULong, r: Run) {
    && r.len > 0
    && r.start + r.len <= |values|
    && forall i :: r.start <= i < r.start + r.len ==> (values[i] != nul <==> r.good)
  }

  /** The runs cut the input into consecutive, non-empty, alternating pieces
      from the first value to the last. */
  ghost predicate Segments(values: seq<ULong>, nul: ULong, runs: seq<Run>) {
    && (|runs| == 0 <==> |values| == 0)
    && (|runs| > 0 ==> runs[0].start == 0 && runs[|runs| - 1].start + runs[|runs| - 1].len == |values|)
    && (forall k :: 0 <= k < |runs| ==> RunHolds(values, nul, runs[k]))
    && (forall k :: 0 < k < |runs| ==>
          runs[k].start == runs[k - 1].start + runs[k - 1].len && runs[k].good != runs[k - 1].good)
  }

  /** The loop's view of the input up to `ii`: the runs closed so far cover
      `[0, ii - pending)` and the open run of `pending` values follows them. */
  ghost predicate Scanned(values: seq<ULong>, nul: ULong, runs: seq<Run>, ii: nat, ngood: nat, nbad: nat) {
    && ii <= |values|
    && (ngood == 0 || nbad == 0)
    && (|runs| == 0 ==> ii == ngood + nbad)
    && (|runs| > 0 ==>
          runs[0].start == 0 &&
          runs[|runs| - 1].start + runs[|runs| - 1].len == ii - ngood - nbad &&
          (ngood + nbad > 0 ==> runs[|runs| - 1].good != (ngood > 0)))
    && (ngood + nbad > 0 ==> RunHolds(values, nul, Run(ngood > 0, ii - ngood - nbad, ngood + nbad)))
    && (forall k :: 0 <= k < |runs| ==> RunHolds(values, nul, runs[k]))
    && (forall k :: 0 < k < |runs| ==>
          runs[k].start == runs[k - 1].start + runs[k - 1].len && runs[k].good != runs[k - 1].good)
  }

  /** Closing the open run keeps the pieces consecutive and alternating. */
  function Close(values: seq<ULong>, nul: ULong, runs: seq<Run>, ii: nat, ngood: nat, nbad: nat): (r: seq<Run>)
    requires Scanned(values, nul, runs, ii, ngood, nbad) && ngood + nbad > 0
    ensures r == runs + [Run(ngood > 0, ii - ngood - nbad, ngood + nbad)]
    ensures Scanned(values, nul, r, ii, 0, 0)
    ensures r[|r| - 1].good == (ngood > 0)
  {
    runs + [Run(ngood > 0, ii - ngood - nbad, ngood + nbad)]
  }

  /** Counting value ii into the open run, which is of its kind. */
  lemma Grow(values: seq<ULong>, nul: ULong, runs: seq<Run>, ii: nat, ngood: nat, nbad: nat)
    requires Scanned(values, nul, runs, ii, ngood, nbad) && ii < |values|
    requires values[ii] != nul ==> nbad == 0
    requires values[ii] == nul ==> ngood == 0
    requires ngood + nbad == 0 && |runs| > 0 ==> runs[|runs| - 1].good != (values[ii] != nul)
    ensures values[ii] != nul ==> Scanned(values, nul, runs, ii + 1, ngood + 1, nbad)
    ensures values[ii] == nul ==> Scanned(values, nul, runs, ii + 1, ngood, nbad + 1)
  {
  }

  /** The counters of the run-splitting loop. */
  datatype Scan = Scan(runs: seq<Run>, ngood: nat, nbad: nat)

  /** One pass of the loop body of `ffpcnuj` at value ii: a good value closes
      an open null run and extends the good count, a null value the other way
      round. */
  function Step(values: seq<ULong>, nul: ULong, s: Scan, ii: nat): (s': Scan)
    requires Scanned(values, nul, s.runs, ii, s.ngood, s.nbad) && ii < |values|
    requires ii > 0 ==> s.ngood + s.nbad > 0
    ensures Scanned(values, nul, s'.runs, ii + 1, s'.ngood, s'.nbad)
    ensures s'.ngood + s'.nbad > 0
  {
    if values[ii] != nul then
      var runs := if s.nbad > 0 then Close(values, nul, s.runs, ii, s.ngood, s.nbad) else s.runs;
      Grow(values, nul, runs, ii, s.ngood, 0);
      Scan(runs, s.ngood + 1, 0)
    else
      var runs := if s.ngood > 0 then Close(values, nul, s.runs, ii, s.ngood, s.nbad) else s.runs;
      Grow(values, nul, runs, ii, 0, s.nbad);
      Scan(runs, 0, s.nbad + 1)
  }

  /** The run-splitting loop of `ffpcnuj`: count consecutive good (`ngood`)
      or null (`nbad`) values, close the open run when the kind changes, and
      close the last one after the loop. */
  method SplitRuns(values: seq<ULong>, nul: ULong) returns (runs: seq<Run>)
    ensures Segments(values, nul, runs)
  {
    var s := Scan([], 0, 0);
    var ii := 0;
    while ii < |values|
      invariant Scanned(values, nul, s.runs, ii, s.ngood, s.nbad)
      invariant ii > 0 ==> s.ngood + s.nbad > 0
    {
      s := Step(values, nul, s, ii);
      ii := ii + 1;
    }
    runs := s.runs;
    if s.ngood > 0 || s.nbad > 0 {
      runs := Close(values, nul, runs, ii, s.ngood, s.nbad);
      Finished(values, nul, runs);
    }
  }

  /** Once the closed runs reach the end of the input they segment it. */
  lemma Finished(values: seq<ULong>, nul: ULong, runs: seq<Run>)
    requires Scanned(values, nul, runs, |values|, 0, 0) && |runs| > 0
    ensures Segments(values, nul, runs)
  {
  }

  /** Any two segmentations of the same input are the same: the runs are
      determined by where the input switches between good and null. */
  lemma {:induction false} SegmentsUnique(values: seq<ULong>, nul: ULong, r1: seq<Run>, r2: seq<Run>, k: nat)
    requires Segments(values, nul, r1) && Segments(values, nul, r2)
    requires k <= |r1| && k <= |r2|
    requires forall j :: 0 <= j < k ==> r1[j] == r2[j]
    ensures r1 == r2
    decreases |values| - (if k == 0 then 0 else r1[k - 1].start + r1[k - 1].len)
  {
    if k == |r1| || k == |r2| {
      SegmentsEnd(values, nul, r1, r2, k);
    } else {
      RunDetermined(values, nul, r1, r2, k);
      SegmentsUnique(values, nul, r1, r2, k + 1);
    }
  }

  /** A run ends at the end of the input exactly when it is the last run. */
  lemma EndIsLast(values: seq<ULong>, nul: ULong, runs: seq<Run>, k: nat)
    requires Segments(values, nul, runs) && 0 < k <= |runs|
    ensures runs[k - 1].start + runs[k - 1].len == |values| <==> k == |runs|
  {
    if k < |runs| {
      assert RunHolds(values, nul, runs[k]);
    }
  }

  /** Where one segmentation ends, an equal prefix of another ends too. */
  lemma SegmentsEnd(values: seq<ULong>, nul: ULong, r1: seq<Run>, r2: seq<Run>, k: nat)
    requires Segments(values, nul, r1) && Segments(values, nul, r2)
    requires k <= |r1| && k <= |r2| && (k == |r1| || k == |r2|)
    requires forall j :: 0 <= j < k ==> r1[j] == r2[j]
    ensures r1 == r2
  {
    if k > 0 {
      EndIsLast(values, nul, r1, k);
      EndIsLast(values, nul, r2, k);
      assert r1[k - 1] == r2[k - 1];
    }
    assert |r1| == |r2|;
  }

  /** The k-th runs agree once the runs before them do. */
  lemma RunDetermined(values: seq<ULong>, nul: ULong, r1: seq<Run>, r2: seq<Run>, k: nat)
    requires Segments(values, nul, r1) && Segments(values, nul, r2)
    requires k < |r1| && k < |r2|
    requires forall j :: 0 <= j < k ==> r1[j] == r2[j]
    ensures r1[k] == r2[k]
  {
    var a, b := r1[k], r2[k];
    assert a.start == b.start by {
      if k > 0 {
        assert r1[k - 1] == r2[k - 1];
      }
    }
    assert RunHolds(values, nul, a) && RunHolds(values, nul, b);
    assert a.good == b.good by {
      assert values[a.start] != nul <==> a.good;
    }
    RunEndSwitches(values, nul, r1, k);
    RunEndSwitches(values, nul, r2, k);
    assert a.len <= b.len by {
      if a.start + a.len < |values| {
        assert a.start <= a.start + a.len;
      }
    }
    assert b.len <= a.len by {
      if b.start + b.len < |values| {
        assert b.start <= b.start + b.len;
      }
    }
  }

  /** The value just past a run that is not the last is of the other kind. */
  lemma RunEndSwitches(values: seq<ULong>, nul: ULong, runs: seq<Run>, k: nat)
    requires Segments(values, nul, runs) && k < |runs|
    ensures runs[k].start + runs[k].len < |values| ==>
      k + 1 < |runs| && (values[runs[k].start + runs[k].len] != nul) != runs[k].good
  {
    EndIsLast(values, nul, runs, k + 1);
    if k + 1 < |runs| {
      assert RunHolds(values, nul, runs[k + 1]);
    }
  }

  /** Row and element (both 1-based) of an element of the column. */
  datatype Position = Position(row: int, elem: int)

  /** The conversion of an absolute element number into (row, element) that
      `ffpcnuj` writes out for every run. */
  function Locate(abs: int, repeat: int): (p: Position)
    requires repeat > 0
    ensures abs >= 1 ==> p.row >= 1 && 1 <= p.elem <= repeat
    ensures abs >= 1 ==> (p.row - 1) * repeat + p.elem == abs
  {
    var row := CDiv(abs - 1, repeat) + 1;
    Position(row, abs - (row - 1) * repeat)
  }

  /** Locating undoes the absolute numbering of a valid position. */
  lemma LocateInverse(row: int, elem: int, repeat: int)
    requires repeat > 0 && row >= 1 && 1 <= elem <= repeat
    ensures Locate((row - 1) * repeat + elem, repeat) == Position(row, elem)
  {
    var abs := (row - 1) * repeat + elem;
    var q := (abs - 1) / repeat;
    assert abs - 1 == (row - 1) * repeat + (elem - 1);
    DivUnique(abs - 1, repeat, row - 1, elem - 1);
  }

  /** The column whose nulls are written: fixed vector length `trepeat`, or a
      variable-length array column. */
  datatype NullColumn = Fixed(trepeat: int) | Variable

  /** The vector length `ffpcnuj` divides by. */
  function Repeat(col: NullColumn, firstelem: int, nelem: nat): int {
    match col
    case Fixed(trepeat) => trepeat
    case Variable => firstelem - 1 + nelem
  }

  /** The writes `ffpcnuj` issues: the whole vector first for a
      variable-length column, a good run through `ffpcluj`, a null run
      through `ffpclu`. */
  datatype SubCall =
    | WriteAll(row: int, elem: int, count: nat)
    | WriteGood(row: int, elem: int, start: nat, count: nat)
    | WriteNulls(row: int, elem: int, count: nat)

  /** How the caller reacts to a positive status from a write: after the
      whole-vector write an overflow is dropped; after a good run it is
      remembered; after a null run any error stops; the last run is not
      checked at all. */
  datatype Check = DropOverflow | KeepOverflow | StopOnError | Unchecked

  datatype Planned = Planned(call: SubCall, check: Check)

  /** The write for run k, if any: good runs of a variable-length column were
      already written with the whole vector. */
  function RunCall(col: NullColumn, first: int, repeat: int, runs: seq<Run>, k: nat): seq<Planned>
    requires repeat > 0 && k < |runs|
  {
    var r := runs[k];
    var at := Locate(first + r.start, repeat);
    var check := if k + 1 == |runs| then Unchecked else if r.good then KeepOverflow else StopOnError;
    if r.good then
      if col.Variable? then [] else [Planned(WriteGood(at.row, at.elem, r.start, r.len), check)]
    else [Planned(WriteNulls(at.row, at.elem, r.len), check)]
  }

  /** The writes for runs k.. in order. */
  function RunCalls(col: NullColumn, first: int, repeat: int, runs: seq<Run>, k: nat): seq<Planned>
    requires repeat > 0 && k <= |runs|
    decreases |runs| - k
  {
    if k == |runs| then [] else RunCall(col, first, repeat, runs, k) + RunCalls(col, first, repeat, runs, k + 1)
  }

  /** Every write of the plan, in the order `ffpcnuj` issues them. */
  function Plan(col: NullColumn, firstrow: int, firstelem: int, nelem: nat, runs: seq<Run>): seq<Planned>
    requires nelem > 0 ==> Repeat(col, firstelem, nelem) > 0
  {
    if nelem == 0 then
      if col.Variable? then [Planned(WriteAll(firstrow, firstelem, 0), DropOverflow)] else []
    else
      var repeat := Repeat(col, firstelem, nelem);
      var first := (firstrow - 1) * repeat + firstelem;
      (if col.Variable? then [Planned(WriteAll(firstrow, firstelem, nelem), DropOverflow)] else [])
      + RunCalls(col, first, repeat, runs, 0)
  }

  /** A run's write starts at the (row, element) of the run's first value,
      counted from the absolute element number `first` of the first input. */
  lemma RunCallPlaced(col: NullColumn, first: int, repeat: int, runs: seq<Run>, k: nat)
    requires repeat > 0 && k < |runs| && first >= 1
    ensures |RunCall(col, first, repeat, runs, k)| == if runs[k].good && col.Variable? then 0 else 1
    ensures forall p :: p in RunCall(col, first, repeat, runs, k) ==>
      && !p.call.WriteAll?
      && p.call.row >= 1 && 1 <= p.call.elem <= repeat
      && (p.call.row - 1) * repeat + p.call.elem == first + runs[k].start
      && p.call.count == runs[k].len
      && (p.call.WriteGood? <==> runs[k].good)
  {
  }

  /** For a fixed-length column every run gets one write, in order, of its
      own kind and length. */
  lemma {:induction false} FixedPlanCovers(trepeat: int, first: int, runs: seq<Run>, k: nat)
    requires trepeat > 0 && k <= |runs|
    ensures |RunCalls(Fixed(trepeat), first, trepeat, runs, k)| == |runs| - k
    ensures forall j :: 0 <= j < |runs| - k ==>
      RunCalls(Fixed(trepeat), first, trepeat, runs, k)[j].call.count == runs[k + j].len &&
      (RunCalls(Fixed(trepeat), first, trepeat, runs, k)[j].call.WriteGood? <==> runs[k + j].good)
    decreases |runs| - k
  {
    if k < |runs| {
      FixedPlanCovers(trepeat, first, runs, k + 1);
    }
  }

  /** For a variable-length column only the null runs get a write of their
      own: the good values went out with the whole vector. */
  lemma {:induction false} VariablePlanNullsOnly(first: int, repeat: int, runs: seq<Run>, k: nat)
    requires repeat > 0 && k <= |runs|
    ensures forall p :: p in RunCalls(Variable, first, repeat, runs, k) ==> p.call.WriteNulls?
    decreases |runs| - k
  {
    if k < |runs| {
      VariablePlanNullsOnly(first, repeat, runs, k + 1);
    }
  }

  /** Only the write of the last run goes unchecked, so it is the last write
      of the plan. */
  lemma {:induction false} UncheckedLast(col: NullColumn, first: int, repeat: int, runs: seq<Run>, k: nat)
    requires repeat > 0 && k <= |runs|
    ensures forall j :: 0 <= j < |RunCalls(col, first, repeat, runs, k)| - 1 ==>
      !RunCalls(col, first, repeat, runs, k)[j].check.Unchecked?
    decreases |runs| - k
  {
    if k < |runs| {
      UncheckedLast(col, first, repeat, runs, k + 1);
      var head, tail := RunCall(col, first, repeat, runs, k), RunCalls(col, first, repeat, runs, k + 1);
      assert RunCalls(col, first, repeat, runs, k) == head + tail;
      if k + 1 == |runs| {
        assert tail == [];
      }
    }
  }

  /** The same for the whole plan, whose whole-vector write comes first. */
  lemma PlanUncheckedLast(col: NullColumn, firstrow: int, firstelem: int, nelem: nat, runs: seq<Run>)
    requires nelem > 0 ==> Repeat(col, firstelem, nelem) > 0
    ensures forall j :: 0 <= j < |Plan(col, firstrow, firstelem, nelem, runs)| - 1 ==>
      !Plan(col, firstrow, firstelem, nelem, runs)[j].check.Unchecked?
  {
    if nelem > 0 {
      var repeat := Repeat(col, firstelem, nelem);
      UncheckedLast(col, (firstrow - 1) * repeat + firstelem, repeat, runs, 0);
    }
  }

  /** How many writes were issued and the status they leave: `respond(c)` is
      the status the c-th write returns. */
  datatype Outcome = Outcome(issued: nat, status: int)

  /** Reference for the status bookkeeping of `ffpcnuj` over the writes from
      c on, with the current status and the remembered overflow. */
  function Settle(plan: seq<Planned>, respond: nat -> int, c: nat, st: int, overflow: bool): (o: Outcome)
    requires c <= |plan|
    ensures c <= o.issued <= |plan|
    decreases |plan| - c
  {
    if c == |plan| then Outcome(c, if st <= 0 && overflow then NumOverflow else st)
    else
      var r := respond(c);
      match plan[c].check
      case Unchecked => Settle(plan, respond, c + 1, r, overflow)
      case DropOverflow =>
        if r > 0 && r != NumOverflow then Outcome(c + 1, r)
        else Settle(plan, respond, c + 1, if r > 0 then 0 else r, overflow)
      case KeepOverflow =>
        if r > 0 && r != NumOverflow then Outcome(c + 1, r)
        else Settle(plan, respond, c + 1, if r > 0 then 0 else r, overflow || r > 0)
      case StopOnError =>
        if r > 0 then Outcome(c + 1, r)
        else Settle(plan, respond, c + 1, r, overflow)
  }

  /** When every write succeeds, all of them are issued and the status is
      clean, unless an overflow had already been remembered. */
  lemma {:induction false} SettleClean(plan: seq<Planned>, respond: nat -> int, c: nat, st: int, overflow: bool)
    requires c < |plan|
    requires forall j :: c <= j < |plan| ==> respond(j) == 0
    ensures Settle(plan, respond, c, st, overflow) == Outcome(|plan|, if overflow then NumOverflow else 0)
    decreases |plan| - c
  {
    if c + 1 < |plan| {
      SettleClean(plan, respond, c + 1, 0, overflow);
    }
  }

  /** Is some write from c on an overflow that is reported? An overflow of the
      whole-vector write is not. */
  predicate OverflowFrom(plan: seq<Planned>, respond: nat -> int, c: nat) {
    exists j :: c <= j < |plan| && respond(j) == NumOverflow && !plan[j].check.DropOverflow?
  }

  /** When the only failures are overflows of the value writes, every write is
      issued and NUM_OVERFLOW is reported exactly when one of them overflowed
      (an overflow of the whole-vector write is dropped). */
  lemma {:induction false} SettleOverflow(plan: seq<Planned>, respond: nat -> int, c: nat, st: int, overflow: bool)
    requires c < |plan| && st <= 0
    requires forall j :: c <= j < |plan| ==>
      respond(j) == 0 || (respond(j) == NumOverflow && !plan[j].check.StopOnError?)
    requires forall j :: c <= j < |plan| - 1 ==> !plan[j].check.Unchecked?
    ensures Settle(plan, respond, c, st, overflow).issued == |plan|
    ensures Settle(plan, respond, c, st, overflow).status ==
      if overflow || OverflowFrom(plan, respond, c) then NumOverflow else 0
    decreases |plan| - c
  {
    var r := respond(c);
    if c + 1 < |plan| {
      var overflow' := overflow || (r > 0 && !plan[c].check.DropOverflow?);
      SettleOverflow(plan, respond, c + 1, 0, overflow');
      assert OverflowFrom(plan, respond, c) <==>
        (r == NumOverflow && !plan[c].check.DropOverflow?) || OverflowFrom(plan, respond, c + 1);
    } else {
      assert OverflowFrom(plan, respond, c) <==> r == NumOverflow && !plan[c].check.DropOverflow?;
    }
  }

  /** Is the status r of a write with check `check` one that ends `ffpcnuj`? */
  predicate Fatal(check: Check, r: int) {
    match check
    case Unchecked => false
    case StopOnError => r > 0
    case _ => r > 0 && r != NumOverflow
  }

  /** The first write that fails fatally is the last one issued, and its
      status is the one returned, whatever the earlier writes reported short
      of a fatal failure (overflows remembered or dropped included). */
  lemma {:induction false} SettleStops(plan: seq<Planned>, respond: nat -> int, c: nat, e: nat, st: int, overflow: bool)
    requires c <= e < |plan|
    requires forall j :: c <= j < e ==> !Fatal(plan[j].check, respond(j)) && !plan[j].check.Unchecked?
    requires Fatal(plan[e].check, respond(e))
    ensures Settle(plan, respond, c, st, overflow) == Outcome(e + 1, respond(e))
    decreases e - c
  {
    if c < e {
      var r, check := respond(c), plan[c].check;
      var st' := if check.StopOnError? || r <= 0 then r else 0;
      var overflow' := overflow || (check.KeepOverflow? && r > 0);
      SettleStops(plan, respond, c + 1, e, st', overflow');
    }
  }

  datatype NullWrite = NullWrite(runs: seq<Run>, calls: seq<SubCall>, status: int)

  function Calls(plan: seq<Planned>): (cs: seq<SubCall>)
    ensures |cs| == |plan|
    ensures forall c :: 0 <= c < |plan| ==> cs[c] == plan[c].call
  {
    if |plan| == 0 then [] else Calls(plan[..|plan| - 1]) + [plan[|plan| - 1].call]
  }

  /** `ffpcnuj`. An incoming error status is returned at once; otherwise the
      input is split into runs, the writes are planned, and they are issued
      until one fails. */
  method WriteColumnNull(status: int, col: NullColumn, firstrow: int, firstelem: int,
                         values: seq<ULong>, nul: ULong, respond: nat -> int)
    returns (w: NullWrite)
    requires |values| > 0 ==> Repeat(col, firstelem, |values|) > 0
    ensures status > 0 ==> w == NullWrite([], [], status)
    ensures status <= 0 ==> Segments(values, nul, w.runs)
    ensures status <= 0 ==>
      var plan := Plan(col, firstrow, firstelem, |values|, w.runs);
      var o := Settle(plan, respond, 0, status, false);
      w.calls == Calls(plan)[..o.issued] && w.status == o.status
  {
    if status > 0 {
      return NullWrite([], [], status);
    }
    var runs := SplitRuns(values, nul);
    var plan := Plan(col, firstrow, firstelem, |values|, runs);
    var o := Settle(plan, respond, 0, status, false);
    w := NullWrite(runs, Calls(plan)[..o.issued], o.status);
  }
}
