// The application-level I/O pacer and the bound it gives over whole runs
// (scripts/windows_qemu_state.py, class IOBudget).  Clock values are reals: rounding is not the point.
module Pacing {

  const IO_BYTES_PER_SECOND: nat := 32 * 1024 * 1024
  const IO_CHUNK: nat := 1024 * 1024

  function Rate(): (rate: real)
    ensures rate == IO_BYTES_PER_SECOND as real
  {
    33554432.0
  }

  // One paced call: the bytes charged, the clock reading taken inside the call, and the clock when it returns.
  datatype Charge = Charge(size: nat, reading: real, wake: real)

  function Due(deadline: real, size: nat): real
  {
    deadline + size as real / Rate()
  }

  // The deadline a charge leaves behind.
  function Settle(deadline: real, c: Charge): real
  {
    if Due(deadline, c.size) > c.reading then Due(deadline, c.size) else c.reading
  }

  // The sleep a charge asks for: until the deadline, if that is still to come.
  function Asked(deadline: real, c: Charge): real
  {
    if Due(deadline, c.size) > c.reading then Due(deadline, c.size) - c.reading else 0.0
  }

  // A charge made after the last deadline asks for no more sleep than its bytes take at the full rate.
  lemma AskedSmall(deadline: real, c: Charge)
    requires deadline <= c.reading
    ensures 0.0 <= Asked(deadline, c) && Rate() * Asked(deadline, c) <= c.size as real
  {
  }

  // Deadline after the first n charges of a run.
  function Deadline(first: real, run: seq<Charge>, n: nat): real
    requires n <= |run|
  {
    if n == 0 then first else Settle(Deadline(first, run, n - 1), run[n - 1])
  }

  // Bytes charged by run[i..j].
  function Charged(run: seq<Charge>, i: nat, j: nat): nat
    requires i <= j <= |run|
    decreases j - i
  {
    if i == j then 0 else Charged(run, i, j - 1) + run[j - 1].size
  }

  // What the clock and time.sleep promise of a run that starts at `first`: time does not run backwards and a
  // sleep lasts at least as long as it was asked to.
  ghost predicate ClockObeyed(first: real, run: seq<Charge>)
  {
    forall i | 0 <= i < |run| ::
      Resumes(first, run, i) <= run[i].reading <= run[i].wake && Deadline(first, run, i + 1) <= run[i].wake
  }

  // When charge i can start: at the start, or when the charge before it has returned.
  function Resumes(first: real, run: seq<Charge>, i: nat): real
    requires i < |run|
  {
    if i == 0 then first else run[i - 1].wake
  }

  // How late the sleep of charge i woke up; zero when the charge did not sleep and returned at once.
  function Overshoot(first: real, run: seq<Charge>, i: nat): real
    requires i < |run|
  {
    run[i].wake - Deadline(first, run, i + 1)
  }

  // Between any two charges the bytes charged are at most rate times the growth of the deadline.
  lemma {:induction false} ChargedWithinDeadlineGrowth(first: real, run: seq<Charge>, i: nat, j: nat)
    requires i <= j <= |run|
    ensures Charged(run, i, j) as real <= Rate() * (Deadline(first, run, j) - Deadline(first, run, i))
    decreases j - i
  {
    if i < j {
      ChargedWithinDeadlineGrowth(first, run, i, j - 1);
    }
  }

  // No stored credit: over any window of any run, however long the run stalled before it, the bytes charged are
  // at most rate times the time the window took plus the overshoot of the one sleep it starts from.
  lemma NoStoredCredit(first: real, run: seq<Charge>, i: nat, j: nat)
    requires ClockObeyed(first, run)
    requires i < j < |run|
    ensures Charged(run, i + 1, j + 1) as real
         <= Rate() * (run[j].wake - run[i].wake + Overshoot(first, run, i))
  {
    hide ClockObeyed, Deadline, Charged;
    ChargedWithinDeadlineGrowth(first, run, i + 1, j + 1);
    AwakeAfterDeadline(first, run, j);
  }

  lemma AwakeAfterDeadline(first: real, run: seq<Charge>, i: nat)
    requires ClockObeyed(first, run) && i < |run|
    ensures Deadline(first, run, i + 1) <= run[i].wake
  {
  }

  // Over the first n charges of a run: the sleep asked for, the time spent outside the charges, and how late the
  // charges returned.
  function AllAsked(first: real, run: seq<Charge>, n: nat): real
    requires n <= |run|
  {
    if n == 0 then 0.0 else AllAsked(first, run, n - 1) + Asked(Deadline(first, run, n - 1), run[n - 1])
  }

  function Busy(first: real, run: seq<Charge>, n: nat): real
    requires n <= |run|
  {
    if n == 0 then 0.0 else Busy(first, run, n - 1) + (run[n - 1].reading - Resumes(first, run, n - 1))
  }

  function Late(first: real, run: seq<Charge>, n: nat): real
    requires n <= |run|
  {
    if n == 0 then 0.0 else Late(first, run, n - 1) + Overshoot(first, run, n - 1)
  }

  // The pacer never waits longer than it must: a run takes the time of its own I/O, the lateness of its sleeps and the
  // sleep it asks for, and that is no more than the bytes charged take at the full rate.
  lemma NeverSlowerThanRate(first: real, run: seq<Charge>, n: nat)
    requires ClockObeyed(first, run) && 0 < n <= |run|
    ensures run[n - 1].wake - first == Busy(first, run, n) + AllAsked(first, run, n) + Late(first, run, n)
    ensures 0.0 <= AllAsked(first, run, n) && Rate() * AllAsked(first, run, n) <= Charged(run, 0, n) as real
  {
    hide ClockObeyed, Busy, AllAsked, Late, Charged;
    TimeSplits(first, run, n);
    AskedWithinRate(first, run, n);
  }

  lemma {:induction false} TimeSplits(first: real, run: seq<Charge>, n: nat)
    requires 0 < n <= |run|
    ensures run[n - 1].wake - first == Busy(first, run, n) + AllAsked(first, run, n) + Late(first, run, n)
  {
    hide Due;
    if n > 1 {
      TimeSplits(first, run, n - 1);
    }
    assert Deadline(first, run, n) == run[n - 1].reading + Asked(Deadline(first, run, n - 1), run[n - 1]);
  }

  lemma {:induction false} AskedWithinRate(first: real, run: seq<Charge>, n: nat)
    requires ClockObeyed(first, run) && n <= |run|
    ensures 0.0 <= AllAsked(first, run, n) && Rate() * AllAsked(first, run, n) <= Charged(run, 0, n) as real
  {
    hide ClockObeyed, Asked, Deadline;
    if n > 0 {
      var due := Deadline(first, run, n - 1);
      AskedWithinRate(first, run, n - 1);
      ReadAfterDeadline(first, run, n - 1);
      AskedSmall(due, run[n - 1]);
      AddScaled(AllAsked(first, run, n - 1), Asked(due, run[n - 1]), Charged(run, 0, n - 1), run[n - 1].size);
    }
  }

  lemma ReadAfterDeadline(first: real, run: seq<Charge>, i: nat)
    requires ClockObeyed(first, run) && i < |run|
    ensures Deadline(first, run, i) <= run[i].reading
  {
    assert Resumes(first, run, i) <= run[i].reading;
    if i > 0 {
      AwakeAfterDeadline(first, run, i - 1);
    }
  }

  lemma AddScaled(a: real, b: real, m: nat, n: nat)
    requires Rate() * a <= m as real && Rate() * b <= n as real
    ensures Rate() * (a + b) <= (m + n) as real
  {
  }

  // The deadline in closed form: the latest of the start plus all the work so far and, for every charge k, its
  // clock reading plus the work charged after it.  `latest` names the one that attains the maximum (0 is the start).
  function Candidate(first: real, run: seq<Charge>, k: nat, n: nat): real
    requires k <= n <= |run|
  {
    (if k == 0 then first else run[k - 1].reading) + Charged(run, k, n) as real / Rate()
  }

  lemma {:induction false} DeadlineIsLatestCandidate(first: real, run: seq<Charge>, n: nat) returns (latest: nat)
    requires n <= |run|
    ensures latest <= n && Deadline(first, run, n) == Candidate(first, run, latest, n)
    ensures forall k: nat | k <= n :: Candidate(first, run, k, n) <= Deadline(first, run, n)
  {
    if n == 0 {
      latest := 0;
    } else {
      var before := DeadlineIsLatestCandidate(first, run, n - 1);
      forall k: nat | k < n
        ensures Candidate(first, run, k, n) == Candidate(first, run, k, n - 1) + run[n - 1].size as real / Rate()
      {
      }
      latest := if Due(Deadline(first, run, n - 1), run[n - 1].size) > run[n - 1].reading then before else n;
    }
  }

  // ---- how runs grow -----------------------------------------------------------------------------------------

  lemma RunGrows(first: real, run: seq<Charge>, c: Charge)
    requires ClockObeyed(first, run) && (if run == [] then first else run[|run| - 1].wake) <= c.reading <= c.wake
    requires Settle(Deadline(first, run, |run|), c) <= c.wake
    ensures ClockObeyed(first, run + [c])
    ensures Deadline(first, run + [c], |run| + 1) == Settle(Deadline(first, run, |run|), c)
  {
    hide Deadline, Settle;
    var more := run + [c];
    forall i | 0 <= i < |more|
      ensures Resumes(first, more, i) <= more[i].reading <= more[i].wake && Deadline(first, more, i + 1) <= more[i].wake
    {
      if i < |run| {
        DeadlinePrefix(first, run, more, i + 1);
        assert more[i] == run[i] && Deadline(first, run, i + 1) <= run[i].wake;
      } else {
        DeadlineNext(first, run, c);
      }
    }
    DeadlineNext(first, run, c);
  }

  lemma NothingCharged(first: real, run: seq<Charge>)
    ensures ClockObeyed(first, []) && Deadline(first, run, 0) == first
  {
  }

  lemma DeadlineNext(first: real, run: seq<Charge>, c: Charge)
    ensures Deadline(first, run + [c], |run| + 1) == Settle(Deadline(first, run, |run|), c)
  {
    hide Settle;
    DeadlinePrefix(first, run, run + [c], |run|);
  }

  lemma {:induction false} DeadlinePrefix(first: real, run: seq<Charge>, more: seq<Charge>, n: nat)
    requires run <= more && n <= |run|
    ensures Deadline(first, more, n) == Deadline(first, run, n)
  {
    hide Settle;
    if n > 0 {
      DeadlinePrefix(first, run, more, n - 1);
      assert more[n - 1] == run[n - 1];
    }
  }

  lemma AskedMore(first: real, run: seq<Charge>, c: Charge)
    ensures AllAsked(first, run + [c], |run| + 1) ==
            AllAsked(first, run, |run|) + Asked(Deadline(first, run, |run|), c)
  {
    hide Asked, Deadline;
    AskedPrefix(first, run, c, |run|);
    DeadlinePrefix(first, run, run + [c], |run|);
  }

  lemma {:induction false} AskedPrefix(first: real, run: seq<Charge>, c: Charge, n: nat)
    requires n <= |run|
    ensures AllAsked(first, run + [c], n) == AllAsked(first, run, n)
  {
    hide Asked, Deadline;
    if n > 0 {
      AskedPrefix(first, run, c, n - 1);
      DeadlinePrefix(first, run, run + [c], n - 1);
    }
  }

  lemma {:induction false} NeverEarlier(first: real, run: seq<Charge>, i: nat)
    requires ClockObeyed(first, run) && i < |run|
    ensures first <= run[i].wake
  {
    hide Deadline;
    assert Resumes(first, run, i) <= run[i].reading <= run[i].wake;
    if i > 0 {
      NeverEarlier(first, run, i - 1);
    }
  }

  lemma {:induction false} ChargedPrefix(run: seq<Charge>, c: Charge, n: nat)
    requires n <= |run|
    ensures Charged(run + [c], 0, n) == Charged(run, 0, n)
  {
    if n > 0 {
      ChargedPrefix(run, c, n - 1);
    }
  }

  // ---- runs of many transfers --------------------------------------------------------------------------------

  // One file: when its budget was made, what was charged, what was moved at the end without being charged, and
  // whether the transfer was given up.
  datatype Transfer = Transfer(begin: real, charges: seq<Charge>, unpaid: nat, failed: bool)

  function Finish(t: Transfer): real
  {
    if t.charges == [] then t.begin else t.charges[|t.charges| - 1].wake
  }

  function LastFinish(start: real, ts: seq<Transfer>): real
  {
    if ts == [] then start else Finish(ts[|ts| - 1])
  }

  // A file that is transferred whole is paid for; one that fails has at most one chunk read and one written unpaid.
  predicate Limited(t: Transfer)
  {
    t.unpaid <= if t.failed then 2 * IO_CHUNK else 0
  }

  // Files are transferred one after the other, each with a fresh budget.
  ghost predicate InTurn(start: real, ts: seq<Transfer>)
  {
    ts == [] || (InTurn(start, ts[..|ts| - 1]) && FollowsOn(LastFinish(start, ts[..|ts| - 1]), ts[|ts| - 1]))
  }

  ghost predicate FollowsOn(finish: real, t: Transfer)
  {
    finish <= t.begin && ClockObeyed(t.begin, t.charges) && Limited(t)
  }

  function MovedBy(t: Transfer): nat
  {
    Charged(t.charges, 0, |t.charges|) + t.unpaid
  }

  function Moved(ts: seq<Transfer>): nat
  {
    if ts == [] then 0 else Moved(ts[..|ts| - 1]) + MovedBy(ts[|ts| - 1])
  }

  function Failures(ts: seq<Transfer>): nat
  {
    if ts == [] then 0 else Failures(ts[..|ts| - 1]) + if ts[|ts| - 1].failed then 1 else 0
  }

  lemma OneMore(start: real, ts: seq<Transfer>, t: Transfer)
    ensures InTurn(start, ts + [t]) <==> InTurn(start, ts) && FollowsOn(LastFinish(start, ts), t)
    ensures Moved(ts + [t]) == Moved(ts) + MovedBy(t)
    ensures Failures(ts + [t]) == Failures(ts) + if t.failed then 1 else 0
  {
    assert (ts + [t])[..|ts|] == ts;
  }

  lemma OneFileOneRate(t: Transfer)
    requires ClockObeyed(t.begin, t.charges)
    ensures t.begin <= Finish(t)
    ensures Charged(t.charges, 0, |t.charges|) as real <= Rate() * (Finish(t) - t.begin)
  {
    hide Deadline, Charged, ClockObeyed;
    var n := |t.charges|;
    ChargedWithinDeadlineGrowth(t.begin, t.charges, 0, n);
    NothingCharged(t.begin, t.charges);
    if n > 0 {
      AwakeAfterDeadline(t.begin, t.charges, n - 1);
      NeverEarlier(t.begin, t.charges, n - 1);
      LaterIsMore(Charged(t.charges, 0, n), t.begin, Deadline(t.begin, t.charges, n), Finish(t));
    }
  }

  lemma LaterIsMore(bytes: nat, begin: real, deadline: real, finish: real)
    requires bytes as real <= Rate() * (deadline - begin) && deadline <= finish
    ensures bytes as real <= Rate() * (finish - begin)
  {
  }

  // Fresh budgets for every file do not loosen the rate: over any number of files the bytes moved are at most rate
  // times elapsed time and two chunks for each file that failed.
  lemma {:induction false} ManyFilesOneRate(start: real, ts: seq<Transfer>)
    requires InTurn(start, ts)
    ensures start <= LastFinish(start, ts)
    ensures Moved(ts) as real <= Rate() * (LastFinish(start, ts) - start) + (2 * IO_CHUNK * Failures(ts)) as real
  {
    hide ClockObeyed, Charged;
    if ts != [] {
      var n := |ts| - 1;
      OneFileOneRate(ts[n]);
      ManyFilesOneRate(start, ts[..n]);
    }
  }

  // The allowance per failed file cannot be smaller, and shutil.copytree goes on after a file fails: n files that each
  // fail with two chunks in flight move all of them in no time at all.
  lemma {:induction false} FailedFilesAreNotPaced(start: real, n: nat) returns (ts: seq<Transfer>)
    ensures InTurn(start, ts) && LastFinish(start, ts) == start
    ensures Failures(ts) == n && Moved(ts) == 2 * IO_CHUNK * n
  {
    ts := [];
    if n > 0 {
      ts := FailedFilesAreNotPaced(start, n - 1);
      var t := Transfer(start, [], 2 * IO_CHUNK, true);
      OneMore(start, ts, t);
      ts := ts + [t];
    }
  }

  // ---- what a stretch of work adds to the account ------------------------------------------------------------

  // The bytes read plus written at one moment of a run, with the number of file transfers given up before it.
  datatype Moment = Moment(time: real, bytes: nat, aborted: nat)

  // What a meter shows: bytes moved, transfers given up, those of files that a directory copy then went on without, and
  // every moment.
  datatype Ledger = Ledger(moved: nat, aborted: nat, missed: nat, log: seq<Moment>)

  // From a to b: beyond one transfer for each missed file at most `more` were given up, and none of these before the
  // last moment.
  ghost predicate Tallied(a: Ledger, b: Ledger, more: nat)
  {
    && a.log <= b.log && a.moved <= b.moved && a.missed <= b.missed
    && a.aborted <= b.aborted <= a.aborted + (b.missed - a.missed) + more
    && forall i | |a.log| <= i < |b.log| :: b.log[i].aborted <= a.aborted + (b.missed - a.missed)
  }

  // A stretch that goes well gives up and misses nothing; one that fails may have given up one transfer at its end.
  ghost predicate Paced(a: Ledger, b: Ledger, ok: bool)
  {
    Tallied(a, b, if ok then 0 else 1) && (ok ==> b.missed == a.missed)
  }

  lemma PacedSame(a: Ledger, ok: bool)
    ensures Paced(a, a, ok)
  {
  }

  lemma PacedThen(a: Ledger, b: Ledger, c: Ledger, ok: bool)
    requires Paced(a, b, true) && Paced(b, c, ok)
    ensures Paced(a, c, ok)
  {
  }

  lemma PacedEither(a: Ledger, b: Ledger, ok: bool)
    requires Paced(a, b, ok)
    ensures Paced(a, b, false) && (ok ==> b.aborted == a.aborted)
  {
  }

  lemma TalliedSame(a: Ledger, more: nat)
    ensures Tallied(a, a, more)
  {
  }

  lemma TalliedThen(a: Ledger, b: Ledger, c: Ledger, more: nat)
    requires Tallied(a, b, 0) && Tallied(b, c, more)
    ensures Tallied(a, c, more)
  {
  }

  lemma TalliedIsPaced(a: Ledger, b: Ledger, more: nat, ok: bool)
    requires Tallied(a, b, more) && more <= (if ok then 0 else 1) && (ok ==> b.missed == a.missed)
    ensures Paced(a, b, ok) && b.aborted <= a.aborted + (b.missed - a.missed) + more
  {
  }

  // After one file of a directory copy: if its transfer was given up and the process lives, the copy goes on without
  // it; if the process died, that was the end.
  lemma FileTallied(a: Ledger, b: Ledger, ok: bool, alive: bool)
    requires Paced(a, b, ok) && b.missed == a.missed
    ensures var goesOn := b.aborted > a.aborted && alive;
            Tallied(a, if goesOn then b.(missed := b.missed + 1) else b, if alive then 0 else 1)
    ensures b.aborted > a.aborted ==> !ok
  {
  }

  // ---- metering ----------------------------------------------------------------------------------------------

  // The clock of one process together with an account of every byte it has moved.
  class Meter {
    const throttled: bool
    var now: real
    ghost var slept: real
    ghost var start: real
    ghost var moved: nat
    ghost var aborted: nat
    ghost var missed: nat
    ghost var transfers: seq<Transfer>
    ghost var log: seq<Moment>

    constructor (throttled: bool)
      ensures Valid() && this.throttled == throttled && Unused()
    {
      this.throttled := throttled;
      now, slept, start := 0.0, 0.0, 0.0;
      moved, aborted, missed := 0, 0, 0;
      transfers, log := [], [];
    }

    // The account of a process that has just started.
    ghost predicate Unused()
      reads this
    {
      Books() == Ledger(0, 0, 0, [])
    }

    ghost function Books(): Ledger
      reads this
    {
      Ledger(moved, aborted, missed, log)
    }

    // The transfers so far follow the rules of the pacer and account for all bytes but those in flight.
    ghost predicate Balanced(inFlight: nat)
      reads this
    {
      && start <= now && aborted == Failures(transfers) && moved == Moved(transfers) + inFlight
      && (throttled ==> InTurn(start, transfers) && LastFinish(start, transfers) <= now)
    }

    // At every moment the bytes moved are at most rate times elapsed time and two chunks: one allowance for the block
    // in flight and one for each transfer given up before.
    ghost predicate LogBounded()
      reads this
    {
      forall i | 0 <= i < |log| ::
        log[i].aborted <= aborted && (throttled ==> Affordable(start, log[i], log[i].aborted))
    }

    // Every moment since the books stood at a is within rate times elapsed time, one chunk counted twice, and as much
    // again for each transfer given up before a and each file missed since.
    ghost predicate AffordableSince(a: Ledger)
      reads this
    {
      && a.missed <= missed
      && (throttled ==> forall i | |a.log| <= i < |log| :: Affordable(start, log[i], a.aborted + missed - a.missed))
    }

    // All the sleep asked for so far, at the full rate, is within the bytes charged and `due` more.
    ghost predicate Rested(due: nat)
      reads `slept, `transfers
    {
      0.0 <= slept && (throttled || slept == 0.0) && Rate() * slept <= (Moved(transfers) + due) as real
    }

    ghost predicate Valid()
      reads this
    {
      Balanced(0) && LogBounded() && Rested(0)
    }

    // The latest transfer is under way, paid for up to its deadline.
    ghost predicate PaidUpTo(deadline: real)
      reads this
    {
      && Valid() && transfers != [] && deadline <= now
      && var t := transfers[|transfers| - 1];
         && !t.failed && t.unpaid == 0
         && (throttled ==> deadline == Deadline(t.begin, t.charges, |t.charges|))
    }

    lemma PaidIsValid(deadline: real)
      requires PaidUpTo(deadline)
      ensures Valid()
    {
    }

    // A new process: nothing moved, nothing given up.
    method Restart()
      modifies this
      ensures Valid() && Unused() && start == now == old(now) && slept == 0.0
    {
      start, slept := now, 0.0;
      moved, aborted, missed := 0, 0, 0;
      transfers, log := [], [];
    }

    // time.monotonic()
    method Monotonic() returns (reading: real)
      modifies this`now
      ensures old(now) <= now == reading
    {
      var passed: real := *;
      if passed > 0.0 {
        now := now + passed;
      }
      reading := now;
    }

    // time.sleep(wanted): wakes no earlier than asked.
    method Sleep(wanted: real)
      requires wanted >= 0.0
      modifies this`now, this`slept
      ensures old(now) + wanted <= now && slept == old(slept) + wanted
    {
      slept := slept + wanted;
      var late: real := *;
      now := now + wanted;
      if late > 0.0 {
        now := now + late;
      }
    }

    // A read or a write of `size` bytes is finished.
    method Move(size: nat, ghost before: nat)
      requires Balanced(before) && LogBounded() && before + size <= 2 * IO_CHUNK
      modifies this`now, this`moved, this`log
      ensures old(now) <= now && moved == old(moved) + size && Balanced(before + size) && LogBounded()
      ensures log == old(log) + [Moment(now, moved, aborted)]
    {
      hide InTurn, Moved, Failures, LastFinish;
      var _ := Monotonic();
      moved := moved + size;
      var moment := Moment(now, moved, aborted);
      log := log + [moment];
      if throttled {
        ManyFilesOneRate(start, transfers);
        StillAffordable(start, moment, LastFinish(start, transfers), Moved(transfers));
      }
    }

    // A new transfer begins.
    ghost method Open(begin: real)
      requires Valid() && begin == now
      modifies this`transfers
      ensures PaidUpTo(begin)
    {
      hide InTurn, Moved, Failures;
      var t := Transfer(begin, [], 0, false);
      NothingCharged(begin, []);
      OneMore(start, transfers, t);
      transfers := transfers + [t];
    }

    // The bytes in flight have been charged for.
    ghost method Pay(c: Charge, deadline: real)
      requires Balanced(c.size) && LogBounded() && Rested(c.size) && transfers != []
      requires var t := transfers[|transfers| - 1];
               && !t.failed && t.unpaid == 0
               && (throttled ==> deadline == Deadline(t.begin, t.charges, |t.charges|)
                                 && Finish(t) <= c.reading <= c.wake && Settle(deadline, c) <= c.wake)
      requires c.wake <= now
      modifies this`transfers
      ensures throttled ==> PaidUpTo(Settle(deadline, c))
      ensures !throttled && deadline <= now ==> PaidUpTo(deadline)
    {
      hide InTurn, Moved, Failures, ClockObeyed, Charged, Deadline, Settle;
      var n := |transfers| - 1;
      var front, t := transfers[..n], transfers[n];
      var u := t.(charges := t.charges + [c]);
      assert transfers == front + [t];
      OneMore(start, front, t);
      OneMore(start, front, u);
      ChargedMore(t.charges, c);
      if throttled {
        RunGrows(t.begin, t.charges, c);
      }
      transfers := front + [u];
    }

    // The transfer under way is given up with these bytes unpaid.
    ghost method Abort(inFlight: nat)
      requires Balanced(inFlight) && LogBounded() && Rested(0) && inFlight <= 2 * IO_CHUNK && transfers != []
      requires !transfers[|transfers| - 1].failed && transfers[|transfers| - 1].unpaid == 0
      modifies this`aborted, this`transfers
      ensures Valid() && aborted == old(aborted) + 1
    {
      hide InTurn, Moved, Failures, ClockObeyed, Charged;
      var n := |transfers| - 1;
      var front, t := transfers[..n], transfers[n];
      var u := t.(unpaid := inFlight, failed := true);
      assert transfers == front + [t];
      OneMore(start, front, t);
      OneMore(start, front, u);
      transfers := front + [u];
      aborted := aborted + 1;
    }

    // A directory copy goes on without one of its files.
    ghost method Miss()
      modifies this`missed
      ensures missed == old(missed) + 1 && (old(Valid()) ==> Valid())
    {
      missed := missed + 1;
    }

    // Over any stretch of work, every moment is within rate times elapsed time and one chunk counted twice, plus as
    // much again for each transfer given up before and each file that a directory copy went on without.
    lemma Stretch(a: Ledger, ok: bool)
      requires Valid() && Paced(a, Books(), ok)
      ensures AffordableSince(a)
      ensures ok ==> missed == a.missed && aborted == a.aborted
    {
      hide Affordable;
      forall i | throttled && |a.log| <= i < |log|
        ensures Affordable(start, log[i], a.aborted + missed - a.missed)
      {
        MoreAffordable(start, log[i], log[i].aborted, a.aborted + missed - a.missed);
      }
    }
  }

  // Rate times elapsed time, one chunk read and one written, and as much again for each of `more` files.
  ghost predicate Affordable(start: real, m: Moment, more: nat)
  {
    m.bytes as real <= Rate() * (m.time - start) + (2 * 1024 * 1024 * (more + 1)) as real
  }

  lemma MoreAffordable(start: real, m: Moment, less: nat, more: nat)
    requires Affordable(start, m, less) && less <= more
    ensures Affordable(start, m, more)
  {
  }

  lemma StillAffordable(start: real, m: Moment, finish: real, moved: nat)
    requires m.bytes <= moved + 2 * IO_CHUNK && finish <= m.time
    requires moved as real <= Rate() * (finish - start) + (2 * IO_CHUNK * m.aborted) as real
    ensures Affordable(start, m, m.aborted)
  {
  }

  lemma ChargedMore(run: seq<Charge>, c: Charge)
    ensures Charged(run + [c], 0, |run| + 1) == Charged(run, 0, |run|) + c.size
  {
    ChargedPrefix(run, c, |run|);
  }

  // class IOBudget
  class IOBudget {
    var deadline: real

    constructor (meter: Meter)
      requires meter.Valid()
      modifies meter`now, meter`transfers
      ensures old(meter.now) <= meter.now == deadline && meter.PaidUpTo(deadline)
      ensures meter.Books() == old(meter.Books())
    {
      var reading := meter.Monotonic();
      meter.Open(reading);
      deadline := reading;
    }

    method ChargeFor(meter: Meter, size: nat) returns (ghost c: Charge)
      modifies this, meter`now, meter`slept
      ensures c.size == size && old(meter.now) <= c.reading <= c.wake == meter.now
      ensures meter.slept == old(meter.slept) + if meter.throttled then Asked(old(deadline), c) else 0.0
      ensures meter.throttled ==> deadline == Settle(old(deadline), c) <= c.wake
      ensures meter.throttled ==> deadline >= Due(old(deadline), size)
      ensures !meter.throttled ==> deadline == old(deadline) && meter.now == old(meter.now)
    {
      if !meter.throttled {
        return Charge(size, meter.now, meter.now);
      }
      deadline := deadline + size as real / Rate();
      var now := meter.Monotonic();
      if deadline > now {
        meter.Sleep(deadline - now);
      } else {
        deadline := now;
      }
      c := Charge(size, now, meter.now);
    }

    // One turn of a copy or hash loop: `size` bytes were read and `written` bytes written.  If both went well they
    // are charged for; otherwise the transfer is given up and they never are.
    method Account(meter: Meter, size: nat, written: nat, ok: bool)
      requires size <= IO_CHUNK && written <= size && meter.PaidUpTo(deadline)
      modifies this, meter`now, meter`slept, meter`moved, meter`aborted, meter`transfers, meter`log
      ensures meter.Valid() && meter.moved == old(meter.moved) + size + written
      ensures Paced(old(meter.Books()), meter.Books(), ok)
      ensures if ok then meter.PaidUpTo(deadline) else meter.aborted == old(meter.aborted) + 1
    {
      hide InTurn, Moved, Failures, Settle, Deadline, Due;
      meter.Move(size, 0);
      meter.Move(written, size);
      ghost var due := deadline;
      if ok {
        ghost var slept := meter.slept;
        ghost var c := ChargeFor(meter, size + written);
        AskedSmall(due, c);
        AddScaled(slept, if meter.throttled then Asked(due, c) else 0.0, Moved(meter.transfers), c.size);
        meter.Pay(c, due);
      } else {
        meter.Abort(size + written);
      }
    }
  }

  // Charges through one budget, with any amount of I/O time between them, make a run as the bounds above need it.
  method ChargeAll(budget: IOBudget, meter: Meter, sizes: seq<nat>) returns (ghost run: seq<Charge>)
    requires meter.throttled && budget.deadline == meter.now
    modifies budget, meter`now, meter`slept
    ensures |run| == |sizes| && forall i | 0 <= i < |run| :: run[i].size == sizes[i]
    ensures ClockObeyed(old(budget.deadline), run)
    ensures budget.deadline == Deadline(old(budget.deadline), run, |run|) <= meter.now
    ensures meter.slept == old(meter.slept) + AllAsked(old(budget.deadline), run, |run|)
  {
    hide ClockObeyed, Settle, Due, Deadline;
    run := [];
    NothingCharged(budget.deadline, []);
    for i := 0 to |sizes|
      invariant |run| == i && forall j | 0 <= j < i :: run[j].size == sizes[j]
      invariant ClockObeyed(old(budget.deadline), run)
      invariant budget.deadline == Deadline(old(budget.deadline), run, i) <= meter.now
      invariant meter.slept == old(meter.slept) + AllAsked(old(budget.deadline), run, i)
      invariant (if i == 0 then old(budget.deadline) else run[i - 1].wake) <= meter.now
    {
      var _ := meter.Monotonic();
      ghost var c := budget.ChargeFor(meter, sizes[i]);
      RunGrows(old(budget.deadline), run, c);
      AskedMore(old(budget.deadline), run, c);
      run := run + [c];
    }
  }
}
