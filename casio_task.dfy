/** The periodic CASIO task process: random time samples, the one-shot
    interval timer, the calibrated busy loop, the scheduling parameter and the
    three signal handlers that start the task, run one job per timer expiry
    and end the task. */
module CasioTask {
  import opened CText

  /** Busy-loop iterations that take one millisecond on the calibrated CPU. */
  const LOOP_ITERATIONS_PER_MILLISEC: nat := 178250

  const MILLISEC: nat := 1000
  const MICROSEC: nat := 1000000
  const NANOSEC: nat := 1000000000

  /** Largest value rand() returns. */
  const RAND_MAX: nat := 2147483647

  /** An unsigned int counts modulo 2^32. */
  const UINT_MOD: nat := 0x1_0000_0000

  // ---------------------------------------------------------------------------
  // Arithmetic of the C casts

  /** A C cast from double to an integer type: the fraction is dropped,
      rounding toward zero. */
  function Trunc(x: real): (r: int)
    ensures 0.0 <= x ==> r == x.Floor
    ensures 0.0 <= x ==> 0 <= r && r as real <= x < r as real + 1.0
    ensures x <= 0.0 ==> r <= 0 && r as real - 1.0 < x <= r as real
  {
    if x >= 0.0 then x.Floor else -((-x).Floor)
  }

  // ---------------------------------------------------------------------------
  // get_time_value

  /** A fraction of a span never leaves the span. */
  lemma ScaleWithin(t: real, d: real)
    requires 0.0 <= t <= 1.0
    ensures 0.0 <= d ==> 0.0 <= t * d <= d
    ensures d <= 0.0 ==> d <= t * d <= 0.0
  {
    if 0.0 <= d {
      assert t * d <= 1.0 * d;
    } else {
      assert 1.0 * d <= t * d;
    }
  }

  /** get_time_value with rand()'s draw passed in: exactly min when the bounds
      are equal, otherwise min moved toward max by the fraction draw/RAND_MAX.
      The result lies between the bounds, whichever way round they are. */
  function GetTimeValue(min: real, max: real, draw: nat): (r: real)
    requires draw <= RAND_MAX
    ensures min == max ==> r == min
    ensures min <= max ==> min <= r <= max
    ensures max <= min ==> max <= r <= min
  {
    if min == max then min
    else
      var t := draw as real / RAND_MAX as real;
      assert 0.0 <= t <= 1.0;
      ScaleWithin(t, max - min);
      min + t * (max - min)
  }

  /** The two extreme draws give the two bounds. */
  lemma GetTimeValueEnds(min: real, max: real)
    ensures GetTimeValue(min, max, 0) == min
    ensures GetTimeValue(min, max, RAND_MAX) == max
  {
  }

  /** A larger draw never gives a value further from max. */
  lemma GetTimeValueMonotone(min: real, max: real, d1: nat, d2: nat)
    requires min <= max && d1 <= d2 <= RAND_MAX
    ensures GetTimeValue(min, max, d1) <= GetTimeValue(min, max, d2)
  {
    if min != max {
      var t1 := d1 as real / RAND_MAX as real;
      var t2 := d2 as real / RAND_MAX as real;
      assert t1 <= t2;
      assert 0.0 <= (t2 - t1) * (max - min);
    }
  }

  // ---------------------------------------------------------------------------
  // struct itimerval

  /** The microsecond part set_signal_timer stores: the fraction left after
      the whole seconds, scaled to microseconds and truncated. */
  function UsecPart(secs: real): (r: int)
    ensures 0.0 <= secs ==> 0 <= r < MICROSEC
    ensures secs <= 0.0 ==> -(MICROSEC as int) < r <= 0
  {
    Trunc((secs - Trunc(secs) as real) * MICROSEC as real)
  }

  /** For a non-negative duration the timer's value is the duration rounded
      down to whole microseconds: never longer, and short by less than one
      microsecond. */
  lemma SplitSeconds(secs: real)
    requires 0.0 <= secs
    ensures Trunc(secs) == secs.Floor
    ensures 0 <= UsecPart(secs) < MICROSEC
    ensures (Trunc(secs) * MICROSEC + UsecPart(secs)) as real <= secs * MICROSEC as real
    ensures secs * MICROSEC as real < (Trunc(secs) * MICROSEC + UsecPart(secs) + 1) as real
  {
    var whole := Trunc(secs);
    var frac := secs - whole as real;
    assert secs * MICROSEC as real == whole as real * MICROSEC as real + frac * MICROSEC as real;
  }

  /** A struct itimerval: the reload interval and the current value, each in
      seconds and microseconds. */
  class ITimerVal {
    var intervalSec: int
    var intervalUsec: int
    var valueSec: int
    var valueUsec: int

    constructor ()
      ensures intervalSec == 0 && intervalUsec == 0 && valueSec == 0 && valueUsec == 0
    {
      intervalSec, intervalUsec, valueSec, valueUsec := 0, 0, 0, 0;
    }

    /** No reload interval: the timer fires at most once. */
    predicate OneShot()
      reads this
    {
      intervalSec == 0 && intervalUsec == 0
    }

    /** clear_signal_timer: all four fields become zero. */
    method Clear()
      modifies this
      ensures OneShot()
      ensures valueSec == 0 && valueUsec == 0
    {
      intervalSec := 0;
      intervalUsec := 0;
      valueSec := 0;
      valueUsec := 0;
    }

    /** set_signal_timer: a one-shot timer whose value is secs, split into
        its whole seconds and the remaining microseconds, both truncated. */
    method Set(secs: real)
      modifies this
      ensures OneShot()
      ensures valueSec == Trunc(secs) && valueUsec == UsecPart(secs)
    {
      intervalSec := 0;
      intervalUsec := 0;
      valueSec := Trunc(secs);
      valueUsec := Trunc((secs - valueSec as real) * MICROSEC as real);
    }
  }

  // ---------------------------------------------------------------------------
  // struct sched_param

  /** The scheduling parameter handed to the CASIO scheduler. */
  class SchedParam {
    var priority: int
    var casioId: int
    var deadline: int

    constructor ()
      ensures priority == 0 && casioId == 0 && deadline == 0
    {
      priority, casioId, deadline := 0, 0, 0;
    }

    /** clear_sched_param: no task id and no deadline; the priority is kept. */
    method Clear()
      modifies this
      ensures casioId == -1 && deadline == 0 && priority == old(priority)
    {
      casioId := -1;
      deadline := 0;
    }
  }

  // ---------------------------------------------------------------------------
  // The busy loop

  /** burn_1millisecs: the empty loop, returning how many iterations it ran. */
  method Burn1Millisecs() returns (iterations: nat)
    ensures iterations == LOOP_ITERATIONS_PER_MILLISEC
  {
    var i: nat := 0;
    while i < LOOP_ITERATIONS_PER_MILLISEC
      invariant i <= LOOP_ITERATIONS_PER_MILLISEC
    {
      i := i + 1;
    }
    iterations := i;
  }

  /** burn_cpu: one calibrated millisecond per unit, returning the total
      number of inner iterations; none for a duration that is not positive. */
  method BurnCpu(milliseconds: int) returns (iterations: nat)
    ensures iterations == if milliseconds <= 0 then 0 else milliseconds * LOOP_ITERATIONS_PER_MILLISEC
  {
    iterations := 0;
    var i := 0;
    while i < milliseconds
      invariant 0 <= i && (0 < milliseconds ==> i <= milliseconds) && (milliseconds <= 0 ==> i == 0)
      invariant iterations == i * LOOP_ITERATIONS_PER_MILLISEC
    {
      var inner := Burn1Millisecs();
      iterations := iterations + inner;
      i := i + 1;
    }
  }

  // ---------------------------------------------------------------------------
  // The signal handlers

  /** What a handler does that can be seen from outside the process: its
      messages, the timer values it arms with setitimer, and the busy loop. */
  datatype Effect =
    | TaskStarted(id: int)
    | Armed(sec: int, usec: int)
    | JobStarts(id: int, jid: int)
    | Burned(iterations: nat)
    | JobEnds(id: int, jid: int)
    | TaskFinished(id: int)

  /** Number of jobs started in a trace. */
  function Jobs(log: seq<Effect>): nat {
    if log == [] then 0
    else Jobs(log[..|log| - 1]) + (if log[|log| - 1].JobStarts? then 1 else 0)
  }

  /** Jobs are numbered from 1 in the order they start, as an unsigned int:
      each job start carries one more than the number of jobs before it. */
  predicate Numbered(log: seq<Effect>) {
    log == [] ||
    (Numbered(log[..|log| - 1]) &&
     (log[|log| - 1].JobStarts? ==> log[|log| - 1].jid == (1 + Jobs(log[..|log| - 1])) % UINT_MOD))
  }

  /** Every job starts right after the timer has been re-armed for the next
      one. */
  predicate ArmedFirst(log: seq<Effect>) {
    log == [] ||
    (ArmedFirst(log[..|log| - 1]) &&
     (log[|log| - 1].JobStarts? ==> |log| >= 2 && log[|log| - 2].Armed?))
  }

  /** Counting on by one commutes with wrapping to an unsigned int. */
  lemma WrapNext(x: nat)
    ensures (x % UINT_MOD + 1) % UINT_MOD == (x + 1) % UINT_MOD
  {
  }

  /** Appending one effect to a well-numbered, well-ordered trace keeps it
      so, provided a job it starts comes right after the timer was armed and
      carries the next number. Only a job start adds to the count. */
  lemma TraceSnoc(log: seq<Effect>, e: Effect)
    requires Numbered(log) && ArmedFirst(log)
    requires e.JobStarts? ==> e.jid == (1 + Jobs(log)) % UINT_MOD && log != [] && log[|log| - 1].Armed?
    ensures Numbered(log + [e]) && ArmedFirst(log + [e])
    ensures Jobs(log + [e]) == Jobs(log) + (if e.JobStarts? then 1 else 0)
  {
    assert (log + [e])[..|log|] == log;
  }

  /** In a well-numbered trace the job started at position k carries the
      number of jobs started before it, plus one. */
  lemma {:induction false} JobNumber(log: seq<Effect>, k: nat)
    requires Numbered(log) && k < |log| && log[k].JobStarts?
    ensures log[k].jid == (1 + Jobs(log[..k])) % UINT_MOD
    decreases |log|
  {
    var init := log[..|log| - 1];
    if k < |init| {
      JobNumber(init, k);
      assert init[..k] == log[..k];
    } else {
      assert log[..k] == init;
    }
  }

  /** In a well-ordered trace the effect just before a job start is the
      arming of the timer. */
  lemma {:induction false} ArmedBefore(log: seq<Effect>, k: nat)
    requires ArmedFirst(log) && k < |log| && log[k].JobStarts?
    ensures 0 < k && log[k - 1].Armed?
    decreases |log|
  {
    var init := log[..|log| - 1];
    if k < |init| {
      ArmedBefore(init, k);
    }
  }

  /** The task process's global state: its id and sampling bounds, the job
      counter jid, the interval timer, whether it has exited, and the trace of
      what its handlers have done. */
  class TaskWorker {
    const casioId: int
    const minExecTime: real
    const maxExecTime: real
    const minInterArrivalTime: real
    const maxInterArrivalTime: real
    const minOffset: real
    const maxOffset: real
    const timer: ITimerVal
    var jid: int
    var finished: bool
    var log: seq<Effect>

    /** jid is one past the number of jobs run, as an unsigned int, and the
        trace numbers and orders its jobs. */
    predicate Valid()
      reads this
    {
      jid == (1 + Jobs(log)) % UINT_MOD && Numbered(log) && ArmedFirst(log)
    }

    /** The process after main has read its arguments: jid starts at 1 and
        the timer is cleared. */
    constructor (casioId: int, minExecTime: real, maxExecTime: real,
                 minInterArrivalTime: real, maxInterArrivalTime: real,
                 minOffset: real, maxOffset: real)
      ensures Valid() && jid == 1 && log == [] && !finished
      ensures this.casioId == casioId && this.minOffset == minOffset && this.maxOffset == maxOffset
      ensures this.minExecTime == minExecTime && this.maxExecTime == maxExecTime
      ensures this.minInterArrivalTime == minInterArrivalTime && this.maxInterArrivalTime == maxInterArrivalTime
      ensures fresh(timer) && timer.OneShot() && timer.valueSec == 0 && timer.valueUsec == 0
    {
      this.casioId := casioId;
      this.minExecTime := minExecTime;
      this.maxExecTime := maxExecTime;
      this.minInterArrivalTime := minInterArrivalTime;
      this.maxInterArrivalTime := maxInterArrivalTime;
      this.minOffset := minOffset;
      this.maxOffset := maxOffset;
      timer := new ITimerVal();
      new;
      timer.Clear();
      jid := 1;
      finished := false;
      log := [];
    }

    /** start_task (SIGUSR1): announces the task and arms the timer with an
        offset sampled from [minOffset, maxOffset]. */
    method StartTask(draw: nat)
      requires Valid() && !finished && draw <= RAND_MAX
      modifies this, timer
      ensures Valid() && jid == old(jid) && !finished
      ensures timer.OneShot()
      ensures timer.valueSec == Trunc(GetTimeValue(minOffset, maxOffset, draw))
      ensures timer.valueUsec == UsecPart(GetTimeValue(minOffset, maxOffset, draw))
      ensures log == old(log) + [TaskStarted(casioId), Armed(timer.valueSec, timer.valueUsec)]
    {
      TraceSnoc(log, TaskStarted(casioId));
      log := log + [TaskStarted(casioId)];
      timer.Set(GetTimeValue(minOffset, maxOffset, draw));
      TraceSnoc(log, Armed(timer.valueSec, timer.valueUsec));
      log := log + [Armed(timer.valueSec, timer.valueUsec)];
    }

    /** do_work (SIGALRM): re-arms the timer with an inter-arrival time
        sampled from [minInterArrivalTime, maxInterArrivalTime], runs job jid
        for an execution time sampled from [minExecTime, maxExecTime], in
        milliseconds, and moves jid on by one, wrapping as an unsigned int. */
    method DoWork(arrivalDraw: nat, execDraw: nat)
      requires Valid() && !finished && arrivalDraw <= RAND_MAX && execDraw <= RAND_MAX
      modifies this, timer
      ensures Valid() && !finished
      ensures jid == (old(jid) + 1) % UINT_MOD
      ensures timer.OneShot()
      ensures timer.valueSec == Trunc(GetTimeValue(minInterArrivalTime, maxInterArrivalTime, arrivalDraw))
      ensures timer.valueUsec == UsecPart(GetTimeValue(minInterArrivalTime, maxInterArrivalTime, arrivalDraw))
      ensures log == old(log) + [Armed(timer.valueSec, timer.valueUsec), JobStarts(casioId, old(jid)),
        Burned(if Trunc(GetTimeValue(minExecTime, maxExecTime, execDraw) * MILLISEC as real) <= 0 then 0
               else Trunc(GetTimeValue(minExecTime, maxExecTime, execDraw) * MILLISEC as real) * LOOP_ITERATIONS_PER_MILLISEC),
        JobEnds(casioId, old(jid))]
    {
      timer.Set(GetTimeValue(minInterArrivalTime, maxInterArrivalTime, arrivalDraw));
      TraceSnoc(log, Armed(timer.valueSec, timer.valueUsec));
      log := log + [Armed(timer.valueSec, timer.valueUsec)];
      TraceSnoc(log, JobStarts(casioId, jid));
      log := log + [JobStarts(casioId, jid)];
      var iterations := BurnCpu(Trunc(GetTimeValue(minExecTime, maxExecTime, execDraw) * MILLISEC as real));
      TraceSnoc(log, Burned(iterations));
      log := log + [Burned(iterations)];
      TraceSnoc(log, JobEnds(casioId, jid));
      log := log + [JobEnds(casioId, jid)];
      WrapNext(1 + Jobs(old(log)));
      jid := (jid + 1) % UINT_MOD;
    }

    /** end_task (SIGUSR2): announces the end and exits. */
    method EndTask()
      requires Valid() && !finished
      modifies this
      ensures Valid() && finished && jid == old(jid)
      ensures log == old(log) + [TaskFinished(casioId)]
    {
      TraceSnoc(log, TaskFinished(casioId));
      log := log + [TaskFinished(casioId)];
      finished := true;
    }
  }

  /** The set-up part of the task program's main: the timer and the
      scheduling parameter are cleared, the priority is 1, and the task's id,
      bounds and deadline are converted from the argument strings (argument 9,
      the seed, only feeds rand, whose draws are parameters here). The
      deadline goes to the scheduler in nanoseconds, truncated. */
  method TaskMain(argv: seq<string>) returns (worker: TaskWorker, param: SchedParam)
    requires |argv| >= 10
    ensures fresh(worker) && fresh(worker.timer) && fresh(param)
    ensures worker.Valid() && worker.jid == 1 && worker.log == [] && !worker.finished
    ensures worker.timer.OneShot() && worker.timer.valueSec == 0 && worker.timer.valueUsec == 0
    ensures worker.casioId == Atoi(argv[1]) == param.casioId
    ensures worker.minExecTime == Atof(argv[2]) && worker.maxExecTime == Atof(argv[3])
    ensures worker.minInterArrivalTime == Atof(argv[4]) && worker.maxInterArrivalTime == Atof(argv[5])
    ensures worker.minOffset == Atof(argv[7]) && worker.maxOffset == Atof(argv[8])
    ensures param.priority == 1 && param.deadline == Trunc(Atof(argv[6]) * NANOSEC as real)
  {
    param := new SchedParam();
    param.Clear();
    param.priority := 1;
    var id := Atoi(argv[1]);
    param.casioId := id;
    param.deadline := Trunc(Atof(argv[6]) * NANOSEC as real);
    worker := new TaskWorker(id, Atof(argv[2]), Atof(argv[3]), Atof(argv[4]), Atof(argv[5]),
                             Atof(argv[7]), Atof(argv[8]));
  }
}
