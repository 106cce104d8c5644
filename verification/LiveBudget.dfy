/**
 * The daily allowance of live upstream calls, kept in a file across restarts: `LiveCallBudget` in
 * backend/fixtures.py. Days are counted; the file is readable whenever it exists.
 */
module LiveBudget {
  import opened Prelude

  type Counts = map<string, int>

  /** What the file holds. */
  datatype File = File(day: int, counts: Counts)

  /** One process's counters, and the file it shares with the processes before and after it. */
  datatype Ledger = Ledger(day: int, state: Counts, file: Option<File>)

  datatype Op = Spend(service: string, cost: int, today: int) | Ask(today: int) | Restart(today: int)

  function Of(counts: Counts, service: string): int {
    if service in counts then counts[service] else 0
  }

  /** An unbudgeted service has no allowance. */
  function CapFor(caps: Counts, service: string): int {
    Of(caps, service)
  }

  /** A file from another day is stale, not authoritative. */
  function Load(file: Option<File>, today: int): Counts {
    if file.Some? && file.value.day == today then file.value.counts else map[]
  }

  function Open(file: Option<File>, today: int): Ledger {
    Ledger(today, Load(file, today), file)
  }

  function Roll(l: Ledger, today: int): Ledger {
    if today != l.day then Ledger(today, map[], l.file) else l
  }

  predicate Grants(caps: Counts, l: Ledger, service: string, cost: int, today: int) {
    Of(Roll(l, today).state, service) + cost <= CapFor(caps, service)
  }

  function Spent(caps: Counts, l: Ledger, service: string, cost: int, today: int): Ledger {
    var rolled := Roll(l, today);
    if !Grants(caps, l, service, cost, today) then rolled
    else
      var state := rolled.state[service := Of(rolled.state, service) + cost];
      Ledger(today, state, Some(File(today, state)))
  }

  function Step(caps: Counts, l: Ledger, op: Op): Ledger {
    match op
    case Spend(service, cost, today) => Spent(caps, l, service, cost, today)
    case Ask(today) => Roll(l, today)
    case Restart(today) => Open(l.file, today)
  }

  /** A first process on the file as found, and everything since, restarts included. */
  function Run(caps: Counts, first: Ledger, ops: seq<Op>): Ledger
    decreases |ops|
  {
    if ops == [] then first else Step(caps, Run(caps, first, Init(ops)), Last(ops))
  }

  lemma RunMore(caps: Counts, first: Ledger, ops: seq<Op>, op: Op)
    ensures Run(caps, first, ops + [op]) == Step(caps, Run(caps, first, ops), op)
  {
    assert Init(ops + [op]) == ops;
  }

  // ---------- The class ----------

  class LiveCallBudget {
    const caps: Counts
    var day: int
    var state: Counts
    var file: Option<File>
    ghost const first: Ledger
    ghost var past: seq<Op>

    ghost function View(): Ledger
      reads this
    {
      Ledger(day, state, file)
    }

    ghost predicate Valid()
      reads this
    {
      View() == Run(caps, first, past)
    }

    constructor (file: Option<File>, caps: Counts, today: int)
      ensures Valid() && past == [] && first == Open(file, today) && this.caps == caps
    {
      this.caps := caps;
      day := today;
      state := Load(file, today);
      this.file := file;
      first := Open(file, today);
      past := [];
    }

    /** A new process on the file an older one left behind. */
    constructor Again(prior: LiveCallBudget, today: int)
      requires prior.Valid()
      ensures Valid() && past == prior.past + [Restart(today)] && first == prior.first && caps == prior.caps
    {
      caps := prior.caps;
      day := today;
      state := Load(prior.file, today);
      file := prior.file;
      first := prior.first;
      past := prior.past + [Restart(today)];
      RunMore(prior.caps, prior.first, prior.past, Restart(today));
    }

    method RollIfNewDay(today: int)
      modifies this`day, this`state
      ensures View() == Roll(old(View()), today)
    {
      if today != day {
        day := today;
        state := map[];
      }
    }

    method Save()
      modifies this`file
      ensures file == Some(File(day, state))
    {
      file := Some(File(day, state));
    }

    /** Reserves `cost` live calls; false means today's cap is reached. */
    method TrySpend(service: string, cost: int, today: int) returns (granted: bool)
      requires Valid()
      modifies this
      ensures Valid() && past == old(past) + [Spend(service, cost, today)]
      ensures granted == Grants(caps, old(View()), service, cost, today)
      ensures granted ==> file == Some(File(today, state))
      ensures !granted ==> file == old(file)
    {
      RunMore(caps, first, past, Spend(service, cost, today));
      past := past + [Spend(service, cost, today)];
      granted := Reserve(service, cost, today);
    }

    /** What happens to the counters and the file. */
    method Reserve(service: string, cost: int, today: int) returns (granted: bool)
      modifies this`day, this`state, this`file
      ensures View() == Spent(caps, old(View()), service, cost, today)
      ensures granted == Grants(caps, old(View()), service, cost, today)
      ensures granted ==> file == Some(File(today, state))
      ensures !granted ==> file == old(file)
    {
      RollIfNewDay(today);
      var used := Of(state, service);
      if used + cost > CapFor(caps, service) { return false; }
      state := state[service := used + cost];
      Save();
      return true;
    }

    method SpentToday(service: string, today: int) returns (n: int)
      requires Valid()
      modifies this
      ensures Valid() && past == old(past) + [Ask(today)] && n == Of(state, service) && file == old(file)
    {
      RunMore(caps, first, past, Ask(today));
      past := past + [Ask(today)];
      RollIfNewDay(today);
      n := Of(state, service);
    }

    method Remaining(service: string, today: int) returns (n: int)
      requires Valid()
      modifies this
      ensures Valid() && past == old(past) + [Ask(today)] && file == old(file)
      ensures n >= 0 && (n > 0 ==> Grants(caps, View(), service, n, today))
      ensures !Grants(caps, View(), service, n + 1, today)
    {
      var spent := SpentToday(service, today);
      n := if CapFor(caps, service) - spent > 0 then CapFor(caps, service) - spent else 0;
    }
  }

  // ---------- Over whole runs ----------

  /** The cost granted to `service` on one day, by every process in the run. */
  function Granted(caps: Counts, first: Ledger, ops: seq<Op>, day: int, service: string): int
    decreases |ops|
  {
    if ops == [] then 0
    else Granted(caps, first, Init(ops), day, service) + Grant(caps, Run(caps, first, Init(ops)), Last(ops), day, service)
  }

  function Grant(caps: Counts, l: Ledger, op: Op, day: int, service: string): int {
    match op
    case Spend(s, cost, today) => if s == service && today == day && Grants(caps, l, s, cost, today) then cost else 0
    case _ => 0
  }

  /** No clock in the run goes back to an earlier day. */
  ghost predicate DaysPass(start: int, ops: seq<Op>) {
    && (forall i | 0 <= i < |ops| :: start <= ops[i].today)
    && (forall i, j | 0 <= i < j < |ops| :: ops[i].today <= ops[j].today)
  }

  /** The day a run has reached. */
  function Today(start: int, ops: seq<Op>): int {
    if ops == [] then start else Last(ops).today
  }

  lemma DaysBefore(start: int, ops: seq<Op>)
    requires ops != [] && DaysPass(start, ops)
    ensures DaysPass(start, Init(ops)) && Today(start, Init(ops)) <= Last(ops).today
  {
    if |ops| > 1 { assert Last(Init(ops)) == ops[|ops| - 2]; }
  }

  /** Memory and disk agree: a process started now, on this file, would know just what this one knows. */
  ghost predicate InStep(l: Ledger) {
    Load(l.file, l.day) == l.state && (l.file.Some? ==> l.file.value.day <= l.day)
  }

  lemma StepKeepsInStep(caps: Counts, l: Ledger, op: Op)
    requires InStep(l) && l.day <= op.today
    ensures InStep(Step(caps, l, op)) && Step(caps, l, op).day == op.today
  {
  }

  lemma {:induction false} RestartRegainsNothing(caps: Counts, first: Ledger, ops: seq<Op>)
    requires InStep(first) && DaysPass(first.day, ops)
    ensures InStep(Run(caps, first, ops)) && Run(caps, first, ops).day == Today(first.day, ops)
    ensures Open(Run(caps, first, ops).file, Run(caps, first, ops).day) == Run(caps, first, ops)
    decreases |ops|
  {
    if ops != [] {
      DaysBefore(first.day, ops);
      RestartRegainsNothing(caps, first, Init(ops));
      StepKeepsInStep(caps, Run(caps, first, Init(ops)), Last(ops));
    }
  }

  /** Calls already counted on `day` when the run began. */
  function Before(first: Ledger, day: int, service: string): int {
    if day == first.day then Of(first.state, service) else 0
  }

  lemma {:induction false} NothingGrantedAhead(caps: Counts, first: Ledger, ops: seq<Op>, day: int, service: string)
    requires DaysPass(first.day, ops) && Today(first.day, ops) < day
    ensures Granted(caps, first, ops, day, service) == 0
    decreases |ops|
  {
    if ops != [] {
      DaysBefore(first.day, ops);
      NothingGrantedAhead(caps, first, Init(ops), day, service);
    }
  }

  /** The counter is exactly what was granted today on top of what the day began with. */
  lemma {:induction false} CounterIsGranted(caps: Counts, first: Ledger, ops: seq<Op>, service: string)
    requires InStep(first) && DaysPass(first.day, ops)
    ensures var today := Today(first.day, ops);
      Of(Run(caps, first, ops).state, service)
      == Before(first, today, service) + Granted(caps, first, ops, today, service)
    decreases |ops|
  {
    if ops != [] {
      var before, op := Init(ops), Last(ops);
      var l := Run(caps, first, before);
      DaysBefore(first.day, ops);
      RestartRegainsNothing(caps, first, before);
      CounterIsGranted(caps, first, before, service);
      if l.day < op.today { NothingGrantedAhead(caps, first, before, op.today, service); }
      StepAddsGrant(caps, l, op, service);
    }
  }

  lemma StepAddsGrant(caps: Counts, l: Ledger, op: Op, service: string)
    requires InStep(l) && l.day <= op.today
    ensures Of(Step(caps, l, op).state, service)
         == (if l.day == op.today then Of(l.state, service) else 0) + Grant(caps, l, op, op.today, service)
  {
  }

  /** A spend is granted exactly when what the day began with, what it has granted and the cost are within the cap. */
  lemma GrantedIff(caps: Counts, first: Ledger, ops: seq<Op>, service: string, cost: int, today: int)
    requires InStep(first) && DaysPass(first.day, ops) && Today(first.day, ops) <= today
    ensures Grants(caps, Run(caps, first, ops), service, cost, today) <==>
              Before(first, today, service) + Granted(caps, first, ops, today, service) + cost
              <= (if service in caps then caps[service] else 0)
  {
    RestartRegainsNothing(caps, first, ops);
    CounterIsGranted(caps, first, ops, service);
    if Today(first.day, ops) < today {
      NothingGrantedAhead(caps, first, ops, today, service);
      StartIsFirst(first, ops);
    }
  }

  lemma StartIsFirst(first: Ledger, ops: seq<Op>)
    requires DaysPass(first.day, ops)
    ensures first.day <= Today(first.day, ops)
  {
  }

  function Most(a: int, b: int): int {
    if a > b then a else b
  }

  /**
   * On every day, over every process of the run, what is granted to a service, with what the day
   * began with, never passes its cap; it can only have begun there already past it.
   */
  lemma {:induction false} NeverOverCap(caps: Counts, first: Ledger, ops: seq<Op>, day: int, service: string)
    requires InStep(first) && DaysPass(first.day, ops)
    ensures Before(first, day, service) + Granted(caps, first, ops, day, service)
         <= Most(CapFor(caps, service), Before(first, day, service))
    decreases |ops|
  {
    if ops != [] {
      var before, op := Init(ops), Last(ops);
      var l := Run(caps, first, before);
      DaysBefore(first.day, ops);
      NeverOverCap(caps, first, before, day, service);
      RestartRegainsNothing(caps, first, before);
      CounterIsGranted(caps, first, before, service);
      if op.today == day && l.day < day { NothingGrantedAhead(caps, first, before, day, service); }
    }
  }

  /** A day that began with nothing counted ends within the cap; without a budget, with nothing at all. */
  lemma CapIsKept(caps: Counts, first: Ledger, ops: seq<Op>, day: int, service: string)
    requires InStep(first) && DaysPass(first.day, ops) && Before(first, day, service) == 0
    ensures CapFor(caps, service) >= 0 ==> Granted(caps, first, ops, day, service) <= CapFor(caps, service)
    ensures service !in caps ==> Granted(caps, first, ops, day, service) <= 0
  {
    NeverOverCap(caps, first, ops, day, service);
  }

  /** Opening a file, of any day up to now or none, is a start in step. */
  lemma OpenIsInStep(file: Option<File>, today: int)
    ensures InStep(Open(file, today)) <==> file.None? || file.value.day <= today
  {
  }

  /** What the first process of a run promises, whatever file of today or before it found. */
  lemma OpenedNeverOverCap(caps: Counts, file: Option<File>, today: int, ops: seq<Op>, day: int, service: string)
    requires file.None? || file.value.day <= today
    requires DaysPass(today, ops)
    ensures var first := Open(file, today);
      Before(first, day, service) + Granted(caps, first, ops, day, service)
      <= Most(CapFor(caps, service), Before(first, day, service))
  {
    OpenIsInStep(file, today);
    NeverOverCap(caps, Open(file, today), ops, day, service);
  }

  // ---------- Days in any order ----------

  /** All that has been counted against `day`: what the file held for it at the start, and every grant. */
  function Counted(caps: Counts, first: Ledger, ops: seq<Op>, day: int, service: string): int {
    Of(Load(first.file, day), service) + Granted(caps, first, ops, day, service)
  }

  /**
   * A step that comes back to a day with an empty counter: memory of another day is dropped by a
   * spend or a question, and a new process finds no file of that day.
   */
  predicate StartsEmpty(l: Ledger, op: Op) {
    match op
    case Restart(today) => l.file.None? || l.file.value.day != today
    case _ => l.day != op.today
  }

  /** And something had been counted against it. */
  predicate Forgets(caps: Counts, first: Ledger, ops: seq<Op>, op: Op, service: string) {
    StartsEmpty(Run(caps, first, ops), op) && Counted(caps, first, ops, op.today, service) != 0
  }

  /** No step of the run forgets. */
  predicate NeverForgets(caps: Counts, first: Ledger, ops: seq<Op>, service: string)
    decreases |ops|
  {
    ops == [] || (NeverForgets(caps, first, Init(ops), service) && !Forgets(caps, first, Init(ops), Last(ops), service))
  }

  /** At every point of the run the counter of the day reached is all that has been counted against it. */
  predicate AlwaysExact(caps: Counts, first: Ledger, ops: seq<Op>, service: string)
    decreases |ops|
  {
    Exact(caps, first, ops, service) && (ops == [] || AlwaysExact(caps, first, Init(ops), service))
  }

  predicate Exact(caps: Counts, first: Ledger, ops: seq<Op>, service: string) {
    var l := Run(caps, first, ops);
    Of(l.state, service) == Counted(caps, first, ops, l.day, service)
  }

  /** The file, whatever its day, holds all that has been counted against that day. */
  predicate FileExact(caps: Counts, first: Ledger, ops: seq<Op>, service: string) {
    var l := Run(caps, first, ops);
    l.file.Some? ==> Of(l.file.value.counts, service) == Counted(caps, first, ops, l.file.value.day, service)
  }

  /** One step, in whatever order the days come. */
  lemma StepCounts(caps: Counts, l: Ledger, op: Op, service: string)
    ensures Step(caps, l, op).day == op.today
    ensures Of(Step(caps, l, op).state, service)
         == (if StartsEmpty(l, op) then 0 else if op.Restart? then Of(l.file.value.counts, service) else Of(l.state, service))
          + Grant(caps, l, op, op.today, service)
    ensures Step(caps, l, op).file == l.file
         || Step(caps, l, op).file == Some(File(op.today, Step(caps, l, op).state))
    ensures Step(caps, l, op).file == l.file ==> forall day | l.file.Some? && day == l.file.value.day ::
              Grant(caps, l, op, day, service) == 0 || Of(l.file.value.counts, service) == Of(Step(caps, l, op).state, service)
    ensures forall day | day != op.today :: Grant(caps, l, op, day, service) == 0
  {
  }

  lemma {:induction false} CountersAreExact(caps: Counts, first: Ledger, ops: seq<Op>, service: string)
    requires InStep(first) && NeverForgets(caps, first, ops, service)
    ensures Exact(caps, first, ops, service) && FileExact(caps, first, ops, service)
    decreases |ops|
  {
    if ops != [] {
      CountersAreExact(caps, first, Init(ops), service);
      StepCounts(caps, Run(caps, first, Init(ops)), Last(ops), service);
    }
  }

  lemma {:induction false} NeverForgetsIsExact(caps: Counts, first: Ledger, ops: seq<Op>, service: string)
    requires InStep(first) && NeverForgets(caps, first, ops, service)
    ensures AlwaysExact(caps, first, ops, service)
    decreases |ops|
  {
    CountersAreExact(caps, first, ops, service);
    if ops != [] { NeverForgetsIsExact(caps, first, Init(ops), service); }
  }

  /** For days in any order: the counter is exact throughout exactly when no step forgets. */
  lemma {:induction false} ExactIffNeverForgets(caps: Counts, first: Ledger, ops: seq<Op>, service: string)
    requires InStep(first)
    ensures AlwaysExact(caps, first, ops, service) <==> NeverForgets(caps, first, ops, service)
    decreases |ops|
  {
    if NeverForgets(caps, first, ops, service) {
      NeverForgetsIsExact(caps, first, ops, service);
    } else if ops != [] {
      ExactIffNeverForgets(caps, first, Init(ops), service);
      StepCounts(caps, Run(caps, first, Init(ops)), Last(ops), service);
    }
  }

  /** And then the cap is kept, on every day and in any order of them. */
  lemma {:induction false} CapKeptUnlessForgotten(caps: Counts, first: Ledger, ops: seq<Op>, day: int, service: string)
    requires InStep(first) && NeverForgets(caps, first, ops, service)
    ensures Counted(caps, first, ops, day, service) <= Most(CapFor(caps, service), Of(Load(first.file, day), service))
    decreases |ops|
  {
    if ops != [] {
      CapKeptUnlessForgotten(caps, first, Init(ops), day, service);
      CountersAreExact(caps, first, ops, service);
      StepCounts(caps, Run(caps, first, Init(ops)), Last(ops), service);
      GrantKeepsCap(caps, Run(caps, first, Init(ops)), Last(ops), day, service);
    }
  }

  lemma GrantKeepsCap(caps: Counts, l: Ledger, op: Op, day: int, service: string)
    ensures Grant(caps, l, op, day, service) != 0 ==>
              op.today == day && Of(Step(caps, l, op).state, service) <= CapFor(caps, service)
  {
  }

  /** Once a day is forgotten its whole cap is there again, on top of what had been counted. */
  lemma ForgottenIsGrantedAgain(caps: Counts, first: Ledger, ops: seq<Op>, op: Op, service: string)
    requires Forgets(caps, first, ops, op, service) && !op.Spend?
    ensures Counted(caps, first, ops + [op] + [Spend(service, CapFor(caps, service), op.today)], op.today, service)
         == Counted(caps, first, ops, op.today, service) + CapFor(caps, service)
  {
    var spend := Spend(service, CapFor(caps, service), op.today);
    var more := ops + [op];
    assert Init(more) == ops && Init(more + [spend]) == more;
    StepCounts(caps, Run(caps, first, ops), op, service);
    assert Run(caps, first, more) == Step(caps, Run(caps, first, ops), op);
    assert Granted(caps, first, more, op.today, service) == Granted(caps, first, ops, op.today, service);
    assert Grant(caps, Run(caps, first, more), spend, op.today, service) == CapFor(caps, service);
  }

  /** A clock that goes back forgets: after a day and a visit to the day before, its cap is there again. */
  lemma ClockGoingBackRegains(caps: Counts, service: string, day: int)
    requires CapFor(caps, service) > 0
    ensures var cap := CapFor(caps, service);
      Granted(caps, Open(None, day), [Spend(service, cap, day), Ask(day - 1), Spend(service, cap, day)], day, service)
      == 2 * cap
  {
    var cap, first := CapFor(caps, service), Open(None, day);
    var a, b, c := Spend(service, cap, day), Ask(day - 1), Spend(service, cap, day);
    assert Init([a]) == [] && Init([a, b]) == [a] && Init([a, b, c]) == [a, b];
    assert Run(caps, first, [a]) == Step(caps, first, a);
    assert Run(caps, first, [a, b]) == Roll(Step(caps, first, a), day - 1);
    assert Granted(caps, first, [a], day, service) == cap;
    assert Granted(caps, first, [a, b], day, service) == cap;
  }

  /** But a new process on the day of return reads the file that nothing has overwritten. */
  lemma RestartAfterGoingBackRemembers(caps: Counts, service: string, day: int)
    requires CapFor(caps, service) > 0
    ensures NeverForgets(caps, Open(None, day), [Spend(service, CapFor(caps, service), day), Ask(day - 1), Restart(day)], service)
  {
    var cap, first := CapFor(caps, service), Open(None, day);
    var a, b, c := Spend(service, cap, day), Ask(day - 1), Restart(day);
    assert Init([a]) == [] && Init([a, b]) == [a] && Init([a, b, c]) == [a, b];
    assert Run(caps, first, [a]) == Step(caps, first, a);
    assert Run(caps, first, [a, b]) == Roll(Step(caps, first, a), day - 1);
    assert Granted(caps, first, [], day - 1, service) == 0 && Grant(caps, first, a, day - 1, service) == 0;
    assert Granted(caps, first, [a], day - 1, service) == 0;
    assert NeverForgets(caps, first, [], service);
    assert NeverForgets(caps, first, [a], service);
    assert NeverForgets(caps, first, [a, b], service);
  }
}
