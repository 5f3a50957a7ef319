/** The goroutines of the codec, interleaved one shared cell at a time.

    A schedule is any list of turns, of the workers and of the loop that starts them.  The theorems say
    that the schedule does not matter and that every schedule comes to its end. */
module ClearingWorkers {
  import opened Fields
  import opened LinearAlgebra
  import opened Elimination

  /** Where one row's goroutine stands: `Idle` when it has not been started.  `q` is the quotient it
      computed when it started. */
  datatype Pc<!T> = Idle | Start | InCoeffs(q: T, k: nat) | InCoded(q: T, k: nat) | Done

  /** The shared matrix, one program counter per row, and the starting loop: it looks at row `next` and
      goes up to row `hi`. */
  datatype Sys<!T> = Sys(m: seq<Row<T>>, pc: seq<Pc<T>>, next: nat, hi: nat)

  /** Who runs next: the loop that starts the goroutines, or the goroutine of one row. */
  datatype Turn = Launcher | Worker(row: nat)

  ghost predicate WellFormed<T>(s: Sys<T>, i: nat, n: nat, w: nat) {
    && Shaped(s.m, n, w) && |s.pc| == |s.m| && i < |s.m| && i < n && s.pc[i].Idle?
    && s.next <= s.hi <= |s.m| && !(s.next <= i < s.hi)
    && (forall j :: s.next <= j < s.hi ==> s.pc[j].Idle?)
    && forall j :: 0 <= j < |s.pc| ==> (s.pc[j].InCoeffs? ==> s.pc[j].k <= n) && (s.pc[j].InCoded? ==> s.pc[j].k <= w)
  }

  /** The loop over the rows from `lo` up to `hi` is about to begin, and no goroutine runs. */
  ghost function Begin<T>(m: seq<Row<T>>, lo: nat, hi: nat): Sys<T> {
    Sys(m, seq(|m|, _ => Idle), lo, hi)
  }

  /** The loop looks at one row, and starts its goroutine unless the cell in column `i` is zero. */
  ghost function LaunchNext<T>(f: Field<T>, s: Sys<T>, i: nat, n: nat, w: nat): (r: Sys<T>)
    requires WellFormed(s, i, n, w)
    ensures WellFormed(r, i, n, w)
  {
    if s.next == s.hi then s
    else if s.m[s.next].vec[i] == f.zero then s.(next := s.next + 1)
    else s.(pc := s.pc[s.next := Start], next := s.next + 1)
  }

  /** Worker `j` takes one step: it reads the quotient, or updates one cell of its own row. */
  ghost function Step<T>(f: Field<T>, s: Sys<T>, i: nat, n: nat, w: nat, j: nat): (r: Sys<T>)
    requires WellFormed(s, i, n, w)
    ensures WellFormed(r, i, n, w)
  {
    if j >= |s.m| then s
    else
      var row, pivot := s.m[j], s.m[i];
      match s.pc[j]
      case Idle => s
      case Done => s
      case Start => s.(pc := s.pc[j := InCoeffs(f.Div(row.vec[i], pivot.vec[i]), i)])
      case InCoeffs(q, k) =>
        if k == n then s.(pc := s.pc[j := InCoded(q, 0)])
        else s.(m := s.m[j := row.(vec := row.vec[k := f.Add(row.vec[k], f.Mul(pivot.vec[k], q))])],
                pc := s.pc[j := InCoeffs(q, k + 1)])
      case InCoded(q, k) =>
        if k == w then s.(pc := s.pc[j := Done])
        else s.(m := s.m[j := row.(load := row.load[k := f.Add(row.load[k], f.Mul(pivot.load[k], q))])],
                pc := s.pc[j := InCoded(q, k + 1)])
  }

  ghost function Take<T>(f: Field<T>, s: Sys<T>, i: nat, n: nat, w: nat, t: Turn): (r: Sys<T>)
    requires WellFormed(s, i, n, w)
    ensures WellFormed(r, i, n, w)
  {
    if t.Launcher? then LaunchNext(f, s, i, n, w) else Step(f, s, i, n, w, t.row)
  }

  ghost function Exec<T>(f: Field<T>, s: Sys<T>, i: nat, n: nat, w: nat, schedule: seq<Turn>): Sys<T>
    requires WellFormed(s, i, n, w)
    decreases |schedule|
  {
    if schedule == [] then s
    else Exec(f, Take(f, s, i, n, w, schedule[0]), i, n, w, schedule[1..])
  }

  /** What row `row` has become when its goroutine stands at `pc`. */
  ghost predicate Reached<T>(f: Field<T>, row: Row<T>, pivot: Row<T>, now: Row<T>, pc: Pc<T>, i: nat)
    requires |row.vec| == |pivot.vec| && |row.load| == |pivot.load| && i < |row.vec|
  {
    && |now.vec| == |row.vec| && |now.load| == |row.load|
    && var q := f.Div(row.vec[i], pivot.vec[i]);
    match pc
    case Idle => now == row
    case Start => now == row
    case InCoeffs(q', k) =>
      && q' == q && i <= k && now.load == row.load
      && forall c :: 0 <= c < |row.vec| ==> now.vec[c] == if i <= c < k then f.Add(row.vec[c], f.Mul(pivot.vec[c], q)) else row.vec[c]
    case InCoded(q', k) =>
      && q' == q && now.vec == AddScaled(f, row.vec, pivot.vec, q, i)
      && forall c :: 0 <= c < |row.load| ==> now.load[c] == if c < k then f.Add(row.load[c], f.Mul(pivot.load[c], q)) else row.load[c]
    case Done => now == RowPlus(f, row, pivot, q, i)
  }

  /** Every row is where its own program counter says, whatever the other workers did, and exactly the
      rows the loop has passed with a nonzero cell have been started. */
  ghost predicate Inv<T>(f: Field<T>, s: Sys<T>, m: seq<Row<T>>, i: nat, n: nat, w: nat, lo: nat, hi: nat)
    requires Shaped(m, n, w) && i < |m| && i < n
  {
    && WellFormed(s, i, n, w) && |s.m| == |m| && s.hi == hi && lo <= s.next
    && forall j :: 0 <= j < |m| ==>
      && (s.pc[j].Idle? <==> !(lo <= j < s.next && m[j].vec[i] != f.zero))
      && Reached(f, m[j], m[i], s.m[j], s.pc[j], i)
  }

  lemma LaunchKeepsInv<T>(f: Field<T>, s: Sys<T>, m: seq<Row<T>>, i: nat, n: nat, w: nat, lo: nat, hi: nat)
    requires Shaped(m, n, w) && i < |m| && i < n && Inv(f, s, m, i, n, w, lo, hi)
    ensures Inv(f, LaunchNext(f, s, i, n, w), m, i, n, w, lo, hi)
  {
    if s.next < s.hi { assert s.m[s.next] == m[s.next]; }
  }

  lemma StepKeepsInv<T>(f: Field<T>, s: Sys<T>, m: seq<Row<T>>, i: nat, n: nat, w: nat, lo: nat, hi: nat, j: nat)
    requires Shaped(m, n, w) && i < |m| && i < n && Inv(f, s, m, i, n, w, lo, hi)
    ensures Inv(f, Step(f, s, i, n, w, j), m, i, n, w, lo, hi)
  {
    if j < |m| {
      var next := Step(f, s, i, n, w, j);
      assert s.m[i] == m[i] && (s.pc[j].Idle? || j != i);
      StepReaches(f, m[j], m[i], s, i, n, w, j);
      assert forall k :: 0 <= k < |m| && k != j ==> next.m[k] == s.m[k] && next.pc[k] == s.pc[k];
    }
  }

  lemma StepReaches<T>(f: Field<T>, row: Row<T>, pivot: Row<T>, s: Sys<T>, i: nat, n: nat, w: nat, j: nat)
    requires WellFormed(s, i, n, w) && j < |s.m| && s.m[i] == pivot
    requires |row.vec| == n && |row.load| == w && Reached(f, row, pivot, s.m[j], s.pc[j], i)
    ensures Reached(f, row, pivot, Step(f, s, i, n, w, j).m[j], Step(f, s, i, n, w, j).pc[j], i)
  {
    var q := f.Div(row.vec[i], pivot.vec[i]);
    match s.pc[j]
    case InCoeffs(_, k) =>
      if k == n { assert s.m[j].vec == AddScaled(f, row.vec, pivot.vec, q, i); }
    case InCoded(_, k) =>
      if k == w { assert s.m[j].load == AddScaled(f, row.load, pivot.load, q, 0); }
    case _ =>
  }

  lemma {:induction false} ExecKeepsInv<T>(f: Field<T>, s: Sys<T>, m: seq<Row<T>>, i: nat, n: nat, w: nat, lo: nat, hi: nat, schedule: seq<Turn>)
    requires Shaped(m, n, w) && i < |m| && i < n && Inv(f, s, m, i, n, w, lo, hi)
    ensures Inv(f, Exec(f, s, i, n, w, schedule), m, i, n, w, lo, hi)
    decreases |schedule|
  {
    if schedule != [] {
      var t := schedule[0];
      if t.Launcher? { LaunchKeepsInv(f, s, m, i, n, w, lo, hi); } else { StepKeepsInv(f, s, m, i, n, w, lo, hi, t.row); }
      ExecKeepsInv(f, Take(f, s, i, n, w, t), m, i, n, w, lo, hi, schedule[1..]);
    }
  }

  /** The WaitGroup lets the main goroutine pass: the loop is over and every started worker has finished. */
  ghost predicate AllFinished<T>(s: Sys<T>) {
    s.next == s.hi && forall j :: 0 <= j < |s.pc| ==> s.pc[j].Idle? || s.pc[j].Done?
  }

  ghost predicate Enabled<T>(s: Sys<T>, t: Turn) {
    match t
    case Launcher => s.next < s.hi
    case Worker(j) => j < |s.pc| && !s.pc[j].Idle? && !s.pc[j].Done?
  }

  /** How many steps a worker still has to take. */
  ghost function StepsLeft<T>(pc: Pc<T>, i: nat, n: nat, w: nat): nat
    requires i < n && (pc.InCoeffs? ==> pc.k <= n) && (pc.InCoded? ==> pc.k <= w)
  {
    match pc
    case Idle => 0
    case Done => 0
    case Start => 1 + (n - i) + 1 + w + 1
    case InCoeffs(_, k) => (n - k) + 1 + w + 1
    case InCoded(_, k) => (w - k) + 1
  }

  /** The steps left for row `j`, the one that starts its worker included. */
  ghost function RowWork<T>(s: Sys<T>, i: nat, n: nat, w: nat, j: nat): nat
    requires WellFormed(s, i, n, w) && j < |s.pc|
  {
    if s.next <= j < s.hi then 1 + StepsLeft(Pc<T>.Start, i, n, w) else StepsLeft(s.pc[j], i, n, w)
  }

  ghost function Work<T>(s: Sys<T>, i: nat, n: nat, w: nat, k: nat): nat
    requires WellFormed(s, i, n, w) && k <= |s.pc|
  {
    if k == 0 then 0 else Work(s, i, n, w, k - 1) + RowWork(s, i, n, w, k - 1)
  }

  lemma {:induction false} WorkAfter<T>(s: Sys<T>, r: Sys<T>, i: nat, n: nat, w: nat, j: nat, k: nat)
    requires WellFormed(s, i, n, w) && WellFormed(r, i, n, w) && j < |s.pc| == |r.pc| && k <= |s.pc|
    requires RowWork(r, i, n, w, j) < RowWork(s, i, n, w, j)
    requires forall x :: 0 <= x < |s.pc| && x != j ==> RowWork(r, i, n, w, x) == RowWork(s, i, n, w, x)
    ensures if j < k then Work(r, i, n, w, k) < Work(s, i, n, w, k) else Work(r, i, n, w, k) == Work(s, i, n, w, k)
  {
    if k > 0 { WorkAfter(s, r, i, n, w, j, k - 1); }
  }

  lemma {:induction false} NoWorkIff<T>(s: Sys<T>, i: nat, n: nat, w: nat, k: nat)
    requires WellFormed(s, i, n, w) && k <= |s.pc|
    ensures Work(s, i, n, w, k) == 0 <==> forall j :: 0 <= j < k ==> RowWork(s, i, n, w, j) == 0
  {
    if k > 0 { NoWorkIff(s, i, n, w, k - 1); }
  }

  lemma FinishedIff<T>(s: Sys<T>, i: nat, n: nat, w: nat)
    requires WellFormed(s, i, n, w)
    ensures AllFinished(s) <==> Work(s, i, n, w, |s.pc|) == 0
    ensures !AllFinished(s) ==> exists u :: Enabled(s, u)
  {
    NoWorkIff(s, i, n, w, |s.pc|);
    if s.next < s.hi {
      assert RowWork(s, i, n, w, s.next) > 0;
      assert Enabled(s, Launcher);
    } else if !AllFinished(s) {
      var j :| 0 <= j < |s.pc| && !s.pc[j].Idle? && !s.pc[j].Done?;
      assert RowWork(s, i, n, w, j) > 0;
      assert Enabled(s, Worker(j));
    }
  }

  lemma StepLowers<T>(f: Field<T>, s: Sys<T>, i: nat, n: nat, w: nat, j: nat)
    requires WellFormed(s, i, n, w) && Enabled(s, Worker(j))
    ensures Work(Step(f, s, i, n, w, j), i, n, w, |s.pc|) < Work(s, i, n, w, |s.pc|)
  {
    var r := Step(f, s, i, n, w, j);
    assert r.pc == s.pc[j := r.pc[j]] && r.next == s.next && r.hi == s.hi;
    assert StepsLeft(r.pc[j], i, n, w) < StepsLeft(s.pc[j], i, n, w);
    WorkAfter(s, r, i, n, w, j, |s.pc|);
  }

  lemma LaunchLowers<T>(f: Field<T>, s: Sys<T>, i: nat, n: nat, w: nat)
    requires WellFormed(s, i, n, w) && Enabled(s, Launcher)
    ensures Work(LaunchNext(f, s, i, n, w), i, n, w, |s.pc|) < Work(s, i, n, w, |s.pc|)
  {
    WorkAfter(s, LaunchNext(f, s, i, n, w), i, n, w, s.next, |s.pc|);
  }

  /** The workers always finish: each turn that changes something uses up some of a finite amount of
      work, none is left exactly when all have finished, and until then some turn changes something. */
  lemma WorkersTerminate<T>(f: Field<T>, s: Sys<T>, i: nat, n: nat, w: nat, t: Turn)
    requires WellFormed(s, i, n, w)
    ensures AllFinished(s) <==> Work(s, i, n, w, |s.pc|) == 0
    ensures Enabled(s, t) ==> Work(Take(f, s, i, n, w, t), i, n, w, |s.pc|) < Work(s, i, n, w, |s.pc|)
    ensures !Enabled(s, t) ==> Take(f, s, i, n, w, t) == s
    ensures !AllFinished(s) ==> exists u :: Enabled(s, u)
  {
    FinishedIff(s, i, n, w);
    if Enabled(s, t) {
      if t.Launcher? { LaunchLowers(f, s, i, n, w); } else { StepLowers(f, s, i, n, w, t.row); }
    }
  }

  lemma FinishedRow<T>(f: Field<T>, s: Sys<T>, m: seq<Row<T>>, i: nat, n: nat, w: nat, lo: nat, hi: nat, j: nat)
    requires Shaped(m, n, w) && i < |m| && i < n && Inv(f, s, m, i, n, w, lo, hi) && AllFinished(s) && j < |m|
    ensures s.m[j] == if lo <= j < hi then Cleared(f, m[j], m[i], i) else m[j]
  {
    assert Reached(f, m[j], m[i], s.m[j], s.pc[j], i);
  }

  /** Forward pass: every interleaving of the starting loop and the goroutines that clear column `i` below
      the pivot leaves the matrix the sequential loop leaves. */
  lemma ForwardScheduleIndependent<T>(f: Field<T>, m: seq<Row<T>>, i: nat, n: nat, w: nat, schedule: seq<Turn>)
    requires Shaped(m, n, w) && i < |m| && i < n
    ensures var start := Begin(m, i + 1, |m|);
      WellFormed(start, i, n, w) &&
      (AllFinished(Exec(f, start, i, n, w, schedule)) ==> Exec(f, start, i, n, w, schedule).m == ClearBelow(f, m, i, n, w))
  {
    var start := Begin(m, i + 1, |m|);
    ExecKeepsInv(f, start, m, i, n, w, i + 1, |m|, schedule);
    var end := Exec(f, start, i, n, w, schedule);
    if AllFinished(end) {
      forall j | 0 <= j < |m| ensures end.m[j] == ClearBelow(f, m, i, n, w)[j] {
        FinishedRow(f, end, m, i, n, w, i + 1, |m|, j);
      }
    }
  }

  /** Backward pass: the same for the rows above the pivot. */
  lemma BackwardScheduleIndependent<T>(f: Field<T>, m: seq<Row<T>>, i: nat, n: nat, w: nat, schedule: seq<Turn>)
    requires Shaped(m, n, w) && i < |m| && i < n
    ensures var start := Begin(m, 0, i);
      WellFormed(start, i, n, w) &&
      (AllFinished(Exec(f, start, i, n, w, schedule)) ==> Exec(f, start, i, n, w, schedule).m == ClearAbove(f, m, i, n, w))
  {
    var start := Begin(m, 0, i);
    ExecKeepsInv(f, start, m, i, n, w, 0, i, schedule);
    var end := Exec(f, start, i, n, w, schedule);
    if AllFinished(end) {
      forall j | 0 <= j < |m| ensures end.m[j] == ClearAbove(f, m, i, n, w)[j] {
        FinishedRow(f, end, m, i, n, w, 0, i, j);
      }
    }
  }

  // ---------- the whole elimination, whatever the schedules ----------

  /** One column of the forward pass, its workers run by `schedule` until all have finished. */
  ghost predicate ForwardTurn<T>(f: Field<T>, m: seq<Row<T>>, i: nat, n: nat, w: nat, schedule: seq<Turn>, r: seq<Row<T>>) {
    && Shaped(m, n, w) && i < |m| && i < n
    && var p := FindPivot(f, m, i, i);
      if p == |m| then r == m
      else
        var start := Begin(Swapped(m, i, p), i + 1, |m|);
        WellFormed(start, i, n, w) && var end := Exec(f, start, i, n, w, schedule); AllFinished(end) && r == end.m
  }

  ghost predicate BackwardTurn<T>(f: Field<T>, m: seq<Row<T>>, i: nat, n: nat, w: nat, schedule: seq<Turn>, r: seq<Row<T>>) {
    && Shaped(m, n, w) && i < |m| && i < n
    && if m[i].vec[i] == f.zero then r == m
      else
        var start := Begin(m, 0, i);
        WellFormed(start, i, n, w) && var end := Exec(f, start, i, n, w, schedule);
        AllFinished(end) && |end.m| == |m| && |end.m[i].vec| == n && r == end.m[i := Normalized(f, end.m[i], i)]
  }

  lemma ForwardTurnIsStep<T>(f: Field<T>, m: seq<Row<T>>, i: nat, n: nat, w: nat, schedule: seq<Turn>, r: seq<Row<T>>)
    requires ForwardTurn(f, m, i, n, w, schedule, r)
    ensures r == ForwardStep(f, m, i, n, w)
  {
    var p := FindPivot(f, m, i, i);
    if p < |m| { ForwardScheduleIndependent(f, Swapped(m, i, p), i, n, w, schedule); }
  }

  lemma BackwardTurnIsStep<T>(f: Field<T>, m: seq<Row<T>>, i: nat, n: nat, w: nat, schedule: seq<Turn>, r: seq<Row<T>>)
    requires BackwardTurn(f, m, i, n, w, schedule, r)
    ensures r == BackwardStep(f, m, i, n, w)
  {
    BackwardScheduleIndependent(f, m, i, n, w, schedule);
  }

  /** The forward pass takes the columns upwards, each with a schedule of its own. */
  ghost predicate ForwardBy<T>(f: Field<T>, stages: seq<seq<Row<T>>>, n: nat, w: nat, schedules: seq<seq<Turn>>) {
    && |stages| == |schedules| + 1
    && forall i :: 0 <= i < |schedules| ==> ForwardTurn(f, stages[i], i, n, w, schedules[i], stages[i + 1])
  }

  /** The backward pass takes them downwards. */
  ghost predicate BackwardBy<T>(f: Field<T>, stages: seq<seq<Row<T>>>, n: nat, w: nat, schedules: seq<seq<Turn>>) {
    && |stages| == |schedules| + 1
    && forall i :: 0 <= i < |schedules| ==> BackwardTurn(f, stages[i + 1], i, n, w, schedules[i], stages[i])
  }

  lemma ForwardNext<T>(f: Field<T>, m: seq<Row<T>>, g: seq<Row<T>>, k: nat, n: nat, w: nat, schedule: seq<Turn>, r: seq<Row<T>>)
    requires Shaped(m, n, w) && 0 < k <= Boundary(|m|, n) && g == Forward(f, m, k - 1, n, w)
    requires ForwardTurn(f, g, k - 1, n, w, schedule, r)
    ensures r == Forward(f, m, k, n, w)
  {
    ForwardTurnIsStep(f, g, k - 1, n, w, schedule, r);
    ForwardExtends(f, m, g, r, k, n, w);
  }

  lemma {:induction false} ForwardAnySchedule<T>(f: Field<T>, stages: seq<seq<Row<T>>>, n: nat, w: nat, schedules: seq<seq<Turn>>, k: nat)
    requires ForwardBy(f, stages, n, w, schedules) && Shaped(stages[0], n, w) && k <= |schedules| <= Boundary(|stages[0]|, n)
    ensures stages[k] == Forward(f, stages[0], k, n, w)
  {
    if k > 0 {
      ForwardAnySchedule(f, stages, n, w, schedules, k - 1);
      var g, turns, r := stages[k - 1], schedules[k - 1], stages[k];
      assert ForwardTurn(f, g, k - 1, n, w, turns, r);
      ForwardNext(f, stages[0], g, k, n, w, turns, r);
    }
  }

  lemma BackwardNext<T>(f: Field<T>, m: seq<Row<T>>, g: seq<Row<T>>, k: nat, n: nat, w: nat, schedule: seq<Turn>, r: seq<Row<T>>)
    requires Shaped(m, n, w) && k < Boundary(|m|, n) && g == Backward(f, m, k + 1, n, w) && BackwardTurn(f, g, k, n, w, schedule, r)
    ensures r == Backward(f, m, k, n, w)
  {
    BackwardTurnIsStep(f, g, k, n, w, schedule, r);
  }

  lemma {:induction false} BackwardAnySchedule<T>(f: Field<T>, stages: seq<seq<Row<T>>>, n: nat, w: nat, schedules: seq<seq<Turn>>, k: nat)
    requires BackwardBy(f, stages, n, w, schedules) && k <= |schedules|
    requires Shaped(stages[|schedules|], n, w) && |schedules| == Boundary(|stages[|schedules|]|, n)
    ensures stages[k] == Backward(f, stages[|schedules|], k, n, w)
    decreases |schedules| - k
  {
    if k < |schedules| {
      BackwardAnySchedule(f, stages, n, w, schedules, k + 1);
      var g, turns, r := stages[k + 1], schedules[k], stages[k];
      assert BackwardTurn(f, g, k, n, w, turns, r);
      BackwardNext(f, stages[|schedules|], g, k, n, w, turns, r);
    }
  }

  /** The result of the whole elimination does not depend on how the goroutines of any column interleave. */
  lemma RrefAnySchedule<T>(f: Field<T>, up: seq<seq<Row<T>>>, down: seq<seq<Row<T>>>, n: nat, w: nat, first: seq<seq<Turn>>, second: seq<seq<Turn>>)
    requires ForwardBy(f, up, n, w, first) && BackwardBy(f, down, n, w, second) && Shaped(up[0], n, w)
    requires |first| == |second| == Boundary(|up[0]|, n) && down[|second|] == up[|first|]
    ensures Shaped(down[0], n, w) && DropZeroRows(f, down[0], n, w) == Rref(f, up[0], n, w)
  {
    ForwardAnySchedule(f, up, n, w, first, |first|);
    BackwardAnySchedule(f, down, n, w, second, 0);
  }
}

/** Matrix multiplication by a pool of workers that take row numbers from a channel. */
module MultiplyWorkers {
  import opened Fields
  import opened LinearAlgebra
  import opened Decoding

  datatype Job = Free | Busy(row: nat, j: nat, k: nat)

  /** `sent` rows have been put on the channel and `taken` received from it; `pending` is the WaitGroup. */
  datatype Pool<!T> = Pool(mult: seq<seq<T>>, sent: nat, taken: nat, jobs: seq<Job>, pending: nat)

  datatype Event = Distribute | Turn(worker: nat)

  ghost predicate Multipliable<T>(a: seq<seq<T>>, b: seq<seq<T>>, cols: nat) {
    && (forall i :: 0 <= i < |a| ==> |a[i]| == |b|)
    && forall k :: 0 <= k < |b| ==> |b[k]| == cols
  }

  /** The matrix product, cell by cell. */
  ghost predicate IsProduct<T>(f: Field<T>, a: seq<seq<T>>, b: seq<seq<T>>, cols: nat, m: seq<seq<T>>)
    requires Multipliable(a, b, cols)
  {
    && |m| == |a|
    && forall i :: 0 <= i < |m| ==> |m[i]| == cols && RowDone(f, a[i], b, cols, m[i], cols, 0)
  }

  /** Row `row` of the product with the cells before column `j` complete, `k` terms summed into cell `j`
      and nothing yet in the cells after it. */
  ghost predicate RowDone<T>(f: Field<T>, arow: seq<T>, b: seq<seq<T>>, cols: nat, row: seq<T>, j: nat, k: nat)
    requires |arow| == |b| && |row| == cols && forall r :: 0 <= r < |b| ==> |b[r]| == cols
  {
    k <= |b| && forall c :: 0 <= c < cols ==>
      row[c] == if c < j then Dot(f, arow, Column(b, c), |b|) else if c == j then Dot(f, arow, Column(b, c), k) else f.zero
  }

  ghost function Begin<T>(f: Field<T>, rows: nat, cols: nat, workers: nat): Pool<T> {
    Pool(seq(rows, _ => Zeros(f, cols)), 0, 0, seq(workers, _ => Free), 0)
  }

  ghost predicate InRange<T>(p: Pool<T>, a: seq<seq<T>>, b: seq<seq<T>>, cols: nat) {
    && |p.mult| == |a| && p.taken <= p.sent <= |a|
    && (forall i :: 0 <= i < |p.mult| ==> |p.mult[i]| == cols)
    && forall x :: 0 <= x < |p.jobs| && p.jobs[x].Busy? ==> p.jobs[x].row < p.taken && p.jobs[x].j <= cols && p.jobs[x].k <= |b|
  }

  ghost function Next<T>(f: Field<T>, p: Pool<T>, a: seq<seq<T>>, b: seq<seq<T>>, cols: nat, e: Event): (r: Pool<T>)
    requires Multipliable(a, b, cols) && InRange(p, a, b, cols)
    ensures InRange(r, a, b, cols)
  {
    match e
    case Distribute => if p.sent == |a| then p else p.(sent := p.sent + 1, pending := p.pending + 1)
    case Turn(x) =>
      if x >= |p.jobs| then p
      else match p.jobs[x]
        case Free => if p.taken == p.sent then p else p.(taken := p.taken + 1, jobs := p.jobs[x := Busy(p.taken, 0, 0)])
        case Busy(row, j, k) =>
          if j == cols then p.(jobs := p.jobs[x := Free], pending := if p.pending == 0 then 0 else p.pending - 1)
          else if k == |b| then p.(jobs := p.jobs[x := Busy(row, j + 1, 0)])
          else
            var cell := f.Add(p.mult[row][j], f.Mul(a[row][k], b[k][j]));
            p.(mult := p.mult[row := p.mult[row][j := cell]], jobs := p.jobs[x := Busy(row, j, k + 1)])
  }

  ghost function Exec<T>(f: Field<T>, p: Pool<T>, a: seq<seq<T>>, b: seq<seq<T>>, cols: nat, events: seq<Event>): (r: Pool<T>)
    requires Multipliable(a, b, cols) && InRange(p, a, b, cols)
    ensures InRange(r, a, b, cols) && |r.jobs| == |p.jobs|
    decreases |events|
  {
    if events == [] then p else Exec(f, Next(f, p, a, b, cols, events[0]), a, b, cols, events[1..])
  }

  ghost function BusyCount(jobs: seq<Job>): nat {
    if jobs == [] then 0 else BusyCount(jobs[..|jobs| - 1]) + if jobs[|jobs| - 1].Busy? then 1 else 0
  }

  /** `row` is held by worker `x`, whose counters say how far it got; a row nobody holds is untouched
      if it has not been taken and complete if it has. */
  ghost predicate Inv<T>(f: Field<T>, p: Pool<T>, a: seq<seq<T>>, b: seq<seq<T>>, cols: nat) {
    && Multipliable(a, b, cols) && InRange(p, a, b, cols)
    && p.pending == (p.sent - p.taken) + BusyCount(p.jobs)
    && (forall x, y :: 0 <= x < y < |p.jobs| && p.jobs[x].Busy? && p.jobs[y].Busy? ==> p.jobs[x].row != p.jobs[y].row)
    && (forall x :: 0 <= x < |p.jobs| && p.jobs[x].Busy? ==>
          RowDone(f, a[p.jobs[x].row], b, cols, p.mult[p.jobs[x].row], p.jobs[x].j, p.jobs[x].k))
    && (forall r :: p.taken <= r < |a| ==> p.mult[r] == Zeros(f, cols))
    && (forall r :: 0 <= r < p.taken && !Held(p, r) ==> RowDone(f, a[r], b, cols, p.mult[r], cols, 0))
  }

  ghost predicate Held<T>(p: Pool<T>, r: nat) {
    exists x :: 0 <= x < |p.jobs| && p.jobs[x].Busy? && p.jobs[x].row == r
  }

  lemma {:induction false} BusyCountUpdate(jobs: seq<Job>, x: nat, job: Job)
    requires x < |jobs|
    ensures BusyCount(jobs[x := job]) == BusyCount(jobs) - (if jobs[x].Busy? then 1 else 0) + (if job.Busy? then 1 else 0)
  {
    var last := |jobs| - 1;
    if x < last {
      BusyCountUpdate(jobs[..last], x, job);
      assert jobs[x := job][..last] == jobs[..last][x := job];
    } else {
      assert jobs[x := job][..last] == jobs[..last];
    }
  }

  lemma {:induction false} BusyCountZero(jobs: seq<Job>)
    requires BusyCount(jobs) == 0
    ensures forall x :: 0 <= x < |jobs| ==> jobs[x].Free?
  {
    if jobs != [] { BusyCountZero(jobs[..|jobs| - 1]); }
  }

  lemma RowAdvances<T>(f: Field<T>, arow: seq<T>, b: seq<seq<T>>, cols: nat, row: seq<T>, j: nat, k: nat)
    requires |arow| == |b| && |row| == cols && forall r :: 0 <= r < |b| ==> |b[r]| == cols
    requires RowDone(f, arow, b, cols, row, j, k)
    ensures j == cols ==> RowDone(f, arow, b, cols, row, cols, 0)
    ensures j < cols && k == |b| ==> RowDone(f, arow, b, cols, row, j + 1, 0)
    ensures j < cols && k < |b| ==> RowDone(f, arow, b, cols, row[j := f.Add(row[j], f.Mul(arow[k], b[k][j]))], j, k + 1)
  {
    if j < cols && k < |b| { assert Column(b, j)[k] == b[k][j]; }
  }

  /** Only the jobs entry and the row of worker `x` changed, and its entry describes its row. */
  lemma WorkerKeepsInv<T>(f: Field<T>, p: Pool<T>, r: Pool<T>, a: seq<seq<T>>, b: seq<seq<T>>, cols: nat, x: nat, row: nat)
    requires Inv(f, p, a, b, cols) && InRange(r, a, b, cols) && x < |p.jobs| && p.jobs[x].Busy? && p.jobs[x].row == row
    requires r.sent == p.sent && r.taken == p.taken && |r.jobs| == |p.jobs| && r.jobs == p.jobs[x := r.jobs[x]]
    requires r.pending == (r.sent - r.taken) + BusyCount(r.jobs)
    requires forall i :: 0 <= i < |a| && i != row ==> r.mult[i] == p.mult[i]
    requires r.jobs[x].Busy? ==> r.jobs[x].row == row && RowDone(f, a[row], b, cols, r.mult[row], r.jobs[x].j, r.jobs[x].k)
    requires r.jobs[x].Free? ==> RowDone(f, a[row], b, cols, r.mult[row], cols, 0)
    ensures Inv(f, r, a, b, cols)
  {
    HeldElsewhere(p, r, x, row);
    assert r.jobs[x].Busy? ==> Held(r, row);
  }

  /** A row held by another worker than `x` is still held when only the entry of `x` changes. */
  lemma HeldElsewhere<T>(p: Pool<T>, r: Pool<T>, x: nat, row: nat)
    requires x < |p.jobs| == |r.jobs| && r.jobs == p.jobs[x := r.jobs[x]]
    requires p.jobs[x].Busy? ==> p.jobs[x].row == row
    ensures forall i :: i != row && Held(p, i) ==> Held(r, i)
  {
    forall i | i != row && Held(p, i)
      ensures Held(r, i)
    {
      var y :| 0 <= y < |p.jobs| && p.jobs[y].Busy? && p.jobs[y].row == i;
      assert r.jobs[y] == p.jobs[y];
    }
  }

  lemma TurnKeepsInv<T>(f: Field<T>, p: Pool<T>, a: seq<seq<T>>, b: seq<seq<T>>, cols: nat, x: nat)
    requires Inv(f, p, a, b, cols) && x < |p.jobs| && p.jobs[x].Busy?
    ensures Inv(f, Next(f, p, a, b, cols, Turn(x)), a, b, cols)
  {
    var r := Next(f, p, a, b, cols, Turn(x));
    var row := p.jobs[x].row;
    RowAdvances(f, a[row], b, cols, p.mult[row], p.jobs[x].j, p.jobs[x].k);
    BusyCountUpdate(p.jobs, x, r.jobs[x]);
    WorkerKeepsInv(f, p, r, a, b, cols, x, row);
  }

  lemma TakeKeepsInv<T>(f: Field<T>, p: Pool<T>, a: seq<seq<T>>, b: seq<seq<T>>, cols: nat, x: nat)
    requires Inv(f, p, a, b, cols) && x < |p.jobs| && p.jobs[x].Free? && p.taken < p.sent
    ensures Inv(f, Next(f, p, a, b, cols, Turn(x)), a, b, cols)
  {
    var r := Next(f, p, a, b, cols, Turn(x));
    BusyCountUpdate(p.jobs, x, r.jobs[x]);
    HeldElsewhere(p, r, x, p.taken);
    assert r.jobs[x].row == p.taken && Held(r, p.taken);
  }

  lemma NextKeepsInv<T>(f: Field<T>, p: Pool<T>, a: seq<seq<T>>, b: seq<seq<T>>, cols: nat, e: Event)
    requires Inv(f, p, a, b, cols)
    ensures Inv(f, Next(f, p, a, b, cols, e), a, b, cols)
  {
    match e
    case Distribute =>
      assert forall i :: Held(Next(f, p, a, b, cols, e), i) == Held(p, i);
    case Turn(x) =>
      if x < |p.jobs| {
        if p.jobs[x].Busy? { TurnKeepsInv(f, p, a, b, cols, x); }
        else if p.taken < p.sent { TakeKeepsInv(f, p, a, b, cols, x); }
      }
  }

  lemma {:induction false} ExecKeepsInv<T>(f: Field<T>, p: Pool<T>, a: seq<seq<T>>, b: seq<seq<T>>, cols: nat, events: seq<Event>)
    requires Inv(f, p, a, b, cols)
    ensures Inv(f, Exec(f, p, a, b, cols, events), a, b, cols)
    decreases |events|
  {
    if events != [] {
      NextKeepsInv(f, p, a, b, cols, events[0]);
      ExecKeepsInv(f, Next(f, p, a, b, cols, events[0]), a, b, cols, events[1..]);
    }
  }

  lemma {:induction false} AllFree(jobs: seq<Job>)
    requires forall x :: 0 <= x < |jobs| ==> jobs[x].Free?
    ensures BusyCount(jobs) == 0
  {
    if jobs != [] { AllFree(jobs[..|jobs| - 1]); }
  }

  /** Whatever the number of workers and the schedule, once all rows are distributed and the WaitGroup
      is back at zero the result is the matrix product. */
  lemma PoolComputesProduct<T>(f: Field<T>, a: seq<seq<T>>, b: seq<seq<T>>, cols: nat, workers: nat, events: seq<Event>)
    requires Multipliable(a, b, cols)
    ensures InRange(Begin(f, |a|, cols, workers), a, b, cols)
    ensures var end := Exec(f, Begin(f, |a|, cols, workers), a, b, cols, events);
      end.sent == |a| && end.pending == 0 ==> IsProduct(f, a, b, cols, end.mult)
  {
    var start := Begin(f, |a|, cols, workers);
    AllFree(start.jobs);
    assert Inv(f, start, a, b, cols);
    ExecKeepsInv(f, start, a, b, cols, events);
    var end := Exec(f, start, a, b, cols, events);
    if end.sent == |a| && end.pending == 0 {
      BusyCountZero(end.jobs);
      forall i | 0 <= i < |a| ensures RowDone(f, a[i], b, cols, end.mult[i], cols, 0) {
        assert !Held(end, i);
      }
    }
  }

  // ---- The pool gets there ----

  /** `Wait` returns: all rows are on the channel and the WaitGroup is back at zero. */
  ghost predicate Drained<T>(p: Pool<T>, rows: nat) {
    p.sent == rows && p.pending == 0
  }

  ghost predicate Enabled<T>(p: Pool<T>, rows: nat, e: Event) {
    match e
    case Distribute => p.sent < rows
    case Turn(x) => x < |p.jobs| && (p.jobs[x].Busy? || p.taken < p.sent)
  }

  /** `x` times `u`, by repeated addition. */
  ghost function Times(x: nat, u: nat): nat {
    if x == 0 then 0 else Times(x - 1, u) + u
  }

  /** Turns a worker needs for a row of `cols` cells of `terms` terms each, from taking it to `Done`. */
  ghost function RowTurns(cols: nat, terms: nat): nat {
    Times(cols, terms + 1) + 1
  }

  ghost function JobLeft(job: Job, cols: nat, terms: nat): (r: nat)
    requires job.Busy? ==> job.j <= cols && job.k <= terms
    ensures r == 0 <==> job.Free?
  {
    if job.Free? then 0
    else if job.j == cols then 1
    else Times(cols - job.j, terms + 1) - job.k + 1
  }

  ghost predicate JobsInRange(jobs: seq<Job>, cols: nat, terms: nat) {
    forall x :: 0 <= x < |jobs| && jobs[x].Busy? ==> jobs[x].j <= cols && jobs[x].k <= terms
  }

  ghost function JobsLeft(jobs: seq<Job>, cols: nat, terms: nat): nat
    requires JobsInRange(jobs, cols, terms)
  {
    if jobs == [] then 0
    else JobsLeft(jobs[..|jobs| - 1], cols, terms) + JobLeft(jobs[|jobs| - 1], cols, terms)
  }

  lemma {:induction false} JobsLeftUpdate(jobs: seq<Job>, cols: nat, terms: nat, x: nat, job: Job)
    requires JobsInRange(jobs, cols, terms) && x < |jobs| && (job.Busy? ==> job.j <= cols && job.k <= terms)
    ensures JobsLeft(jobs[x := job], cols, terms)
         == JobsLeft(jobs, cols, terms) - JobLeft(jobs[x], cols, terms) + JobLeft(job, cols, terms)
  {
    var last := |jobs| - 1;
    if x < last {
      JobsLeftUpdate(jobs[..last], cols, terms, x, job);
      assert jobs[x := job][..last] == jobs[..last][x := job];
    } else {
      assert jobs[x := job][..last] == jobs[..last];
    }
  }

  lemma {:induction false} NoneLeftIff(jobs: seq<Job>, cols: nat, terms: nat)
    requires JobsInRange(jobs, cols, terms)
    ensures JobsLeft(jobs, cols, terms) == 0 <==> BusyCount(jobs) == 0
  {
    if jobs != [] { NoneLeftIff(jobs[..|jobs| - 1], cols, terms); }
  }

  /** The turns left: for rows not yet on the channel, rows waiting on it, and rows being worked on. */
  ghost function PoolWork<T>(p: Pool<T>, a: seq<seq<T>>, b: seq<seq<T>>, cols: nat): nat
    requires InRange(p, a, b, cols)
  {
    Times(|a| - p.sent, RowTurns(cols, |b|) + 2) + Times(p.sent - p.taken, RowTurns(cols, |b|) + 1)
    + JobsLeft(p.jobs, cols, |b|)
  }

  lemma JobAdvances(row: nat, j: nat, k: nat, cols: nat, terms: nat)
    requires j < cols && k <= terms
    ensures k < terms ==> JobLeft(Busy(row, j, k + 1), cols, terms) == JobLeft(Busy(row, j, k), cols, terms) - 1
    ensures k == terms ==> JobLeft(Busy(row, j + 1, 0), cols, terms) == JobLeft(Busy(row, j, k), cols, terms) - 1
  {
    assert Times(cols - j, terms + 1) == Times(cols - j - 1, terms + 1) + terms + 1;
  }

  lemma TurnTakesOne<T>(f: Field<T>, p: Pool<T>, a: seq<seq<T>>, b: seq<seq<T>>, cols: nat, x: nat)
    requires Multipliable(a, b, cols) && InRange(p, a, b, cols) && x < |p.jobs| && p.jobs[x].Busy?
    ensures var job := Next(f, p, a, b, cols, Turn(x)).jobs[x];
      && (job.Busy? ==> job.j <= cols && job.k <= |b|)
      && JobLeft(job, cols, |b|) == JobLeft(p.jobs[x], cols, |b|) - 1
      && Next(f, p, a, b, cols, Turn(x)).jobs == p.jobs[x := job]
  {
    if p.jobs[x].j < cols { JobAdvances(p.jobs[x].row, p.jobs[x].j, p.jobs[x].k, cols, |b|); }
  }

  lemma BusyTurnLowers<T>(f: Field<T>, p: Pool<T>, a: seq<seq<T>>, b: seq<seq<T>>, cols: nat, x: nat)
    requires Multipliable(a, b, cols) && InRange(p, a, b, cols) && x < |p.jobs| && p.jobs[x].Busy?
    ensures PoolWork(Next(f, p, a, b, cols, Turn(x)), a, b, cols) == PoolWork(p, a, b, cols) - 1
  {
    TurnTakesOne(f, p, a, b, cols, x);
    JobsLeftUpdate(p.jobs, cols, |b|, x, Next(f, p, a, b, cols, Turn(x)).jobs[x]);
  }

  lemma TakingLowers<T>(f: Field<T>, p: Pool<T>, a: seq<seq<T>>, b: seq<seq<T>>, cols: nat, x: nat)
    requires Multipliable(a, b, cols) && InRange(p, a, b, cols) && x < |p.jobs| && p.jobs[x].Free? && p.taken < p.sent
    ensures PoolWork(Next(f, p, a, b, cols, Turn(x)), a, b, cols) == PoolWork(p, a, b, cols) - 1
  {
    JobsLeftUpdate(p.jobs, cols, |b|, x, Busy(p.taken, 0, 0));
    var u := RowTurns(cols, |b|);
    assert Times(p.sent - p.taken, u + 1) == Times(p.sent - p.taken - 1, u + 1) + (u + 1);
  }

  lemma SendingLowers<T>(f: Field<T>, p: Pool<T>, a: seq<seq<T>>, b: seq<seq<T>>, cols: nat)
    requires Multipliable(a, b, cols) && InRange(p, a, b, cols) && p.sent < |a|
    ensures PoolWork(Next(f, p, a, b, cols, Distribute), a, b, cols) == PoolWork(p, a, b, cols) - 1
  {
    var u := RowTurns(cols, |b|);
    assert Times(|a| - p.sent, u + 2) == Times(|a| - p.sent - 1, u + 2) + (u + 2);
    assert Times(p.sent + 1 - p.taken, u + 1) == Times(p.sent - p.taken, u + 1) + (u + 1);
  }

  /** Every event that changes the pool takes exactly one turn off what is left. */
  lemma EventLowers<T>(f: Field<T>, p: Pool<T>, a: seq<seq<T>>, b: seq<seq<T>>, cols: nat, e: Event)
    requires Multipliable(a, b, cols) && InRange(p, a, b, cols)
    ensures Enabled(p, |a|, e) ==> PoolWork(Next(f, p, a, b, cols, e), a, b, cols) == PoolWork(p, a, b, cols) - 1
    ensures !Enabled(p, |a|, e) ==> Next(f, p, a, b, cols, e) == p
  {
    if Enabled(p, |a|, e) {
      if e.Distribute? { SendingLowers(f, p, a, b, cols); }
      else if p.jobs[e.worker].Free? { TakingLowers(f, p, a, b, cols, e.worker); }
      else { BusyTurnLowers(f, p, a, b, cols, e.worker); }
    }
  }

  lemma {:induction false} SomeoneBusy(jobs: seq<Job>) returns (x: nat)
    requires BusyCount(jobs) > 0
    ensures x < |jobs| && jobs[x].Busy?
  {
    x := |jobs| - 1;
    if jobs[x].Free? { x := SomeoneBusy(jobs[..x]); }
  }

  /** With at least one worker the pool is never stuck, and it is drained exactly when no work is left. */
  lemma PoolNotStuck<T>(f: Field<T>, p: Pool<T>, a: seq<seq<T>>, b: seq<seq<T>>, cols: nat) returns (e: Event)
    requires Inv(f, p, a, b, cols) && |p.jobs| > 0
    ensures Drained(p, |a|) <==> PoolWork(p, a, b, cols) == 0
    ensures !Drained(p, |a|) ==> Enabled(p, |a|, e)
  {
    NoneLeftIff(p.jobs, cols, |b|);
    e := Distribute;
    if p.sent == |a| {
      if p.taken < p.sent {
        e := Turn(0);
      } else if BusyCount(p.jobs) > 0 {
        var x := SomeoneBusy(p.jobs);
        e := Turn(x);
      }
    }
  }

  /** From every state the pool can reach, with at least one worker, exactly `PoolWork` further events
      drain it. */
  lemma {:induction false} PoolDrains<T>(f: Field<T>, p: Pool<T>, a: seq<seq<T>>, b: seq<seq<T>>, cols: nat) returns (events: seq<Event>)
    requires Inv(f, p, a, b, cols) && |p.jobs| > 0
    ensures |events| == PoolWork(p, a, b, cols) && Drained(Exec(f, p, a, b, cols, events), |a|)
    decreases PoolWork(p, a, b, cols)
  {
    var e := PoolNotStuck(f, p, a, b, cols);
    if Drained(p, |a|) {
      events := [];
    } else {
      EventLowers(f, p, a, b, cols, e);
      NextKeepsInv(f, p, a, b, cols, e);
      var rest := PoolDrains(f, Next(f, p, a, b, cols, e), a, b, cols);
      events := [e] + rest;
      assert events[1..] == rest;
    }
  }

  lemma {:induction false} ExecJoins<T>(f: Field<T>, p: Pool<T>, a: seq<seq<T>>, b: seq<seq<T>>, cols: nat, events: seq<Event>, rest: seq<Event>)
    requires Multipliable(a, b, cols) && InRange(p, a, b, cols)
    ensures Exec(f, p, a, b, cols, events + rest) == Exec(f, Exec(f, p, a, b, cols, events), a, b, cols, rest)
    decreases |events|
  {
    if events == [] {
      assert events + rest == rest;
    } else {
      assert (events + rest)[1..] == events[1..] + rest;
      ExecJoins(f, Next(f, p, a, b, cols, events[0]), a, b, cols, events[1..], rest);
    }
  }

  /** Multiply always returns the product: with at least one worker, whatever happened so far, the pool
      can be brought to the end, and what it then holds is the product. */
  lemma PoolFinishes<T>(f: Field<T>, a: seq<seq<T>>, b: seq<seq<T>>, cols: nat, workers: nat, events: seq<Event>) returns (rest: seq<Event>)
    requires Multipliable(a, b, cols) && workers > 0
    ensures var end := Exec(f, Begin(f, |a|, cols, workers), a, b, cols, events + rest);
      Drained(end, |a|) && IsProduct(f, a, b, cols, end.mult)
  {
    var start := Begin(f, |a|, cols, workers);
    AllFree(start.jobs);
    ExecKeepsInv(f, start, a, b, cols, events);
    rest := PoolDrains(f, Exec(f, start, a, b, cols, events), a, b, cols);
    ExecJoins(f, start, a, b, cols, events, rest);
    PoolComputesProduct(f, a, b, cols, workers, events + rest);
  }
}
