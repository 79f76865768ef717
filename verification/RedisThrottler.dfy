/**
 The Redis rate limiter of one throttle key, run by any number of calls on any number of
 gateway instances. Every Redis command is one step; the steps of different calls interleave
 freely, the clock moves between them, and calls may die with their process.
 */
module RedisThrottlers {
  import opened Wrappers
  import opened Arithmetic
  import opened Counting

  datatype Config = Config(ttl: int, limit: int, blockDuration: int)

  /** What INCR told a call: its number in the lifetime `life` of the hits key, at time `at`. */
  datatype Hit = Hit(life: nat, number: nat, at: int)

  datatype Answer = Answer(totalHits: int, timeToExpire: int, isBlocked: bool, timeToBlockExpire: int)

  /** Where a call is: before TTL of the block key, before INCR, before EXPIRE, before TTL of
      the hits key, before SETEX, or answered. */
  datatype Stage =
    | Asked
    | Cleared
    | Expiring(hit: Hit)
    | Reading(hit: Hit)
    | Blocking(hit: Hit, remaining: int)
    | Rejected(answer: Answer)
    | Answered(hit: Hit, answer: Answer)

  /** The hits key while it exists; `deadline` is its expiry time, if it has one. */
  datatype Counter = Counter(count: nat, deadline: Option<int>)

  /** `starts` are the times at which the lifetimes of the hits key began; the newest is the
      current one while `counter` is present. */
  datatype State = State(now: int, counter: Option<Counter>, block: Option<int>, starts: seq<int>, calls: map<nat, Stage>)

  const INITIAL := State(0, None, None, [], map[])

  datatype Step =
    | Arrive(call: nat)
    | CheckBlock(call: nat)
    | Incr(call: nat)
    | Expire(call: nat)
    | ReadTtl(call: nat)
    | SetBlock(call: nat)
    | Tick(elapsed: nat)
    | Crash(call: nat)

  function CeilSeconds(ms: int): int {
    -((-ms) / 1000)
  }

  /** The TTL reply: -2 without the key, -1 without an expiry, else rounded seconds. */
  function TtlReply(present: bool, deadline: Option<int>, now: int): int {
    if !present then -2 else if deadline.None? then -1 else (deadline.value - now + 500) / 1000
  }

  function BlockTtl(s: State): int {
    TtlReply(s.block.Some?, s.block, s.now)
  }

  function HitsTtl(s: State): int {
    TtlReply(s.counter.Some?, if s.counter.Some? then s.counter.value.deadline else None, s.now)
  }

  /** A key is gone once the clock has passed its deadline. */
  predicate Expired(deadline: Option<int>, now: int) {
    deadline.Some? && deadline.value < now
  }

  function AdvanceTo(s: State, now: int): State {
    s.(now := now,
       counter := if s.counter.Some? && Expired(s.counter.value.deadline, now) then None else s.counter,
       block := if Expired(s.block, now) then None else s.block)
  }

  function Put(s: State, call: nat, stage: Stage): State {
    s.(calls := s.calls[call := stage])
  }

  function DoCheck(cfg: Config, s: State, call: nat): State {
    var ttl := BlockTtl(s);
    Put(s, call, if ttl > 0 then Rejected(Answer(cfg.limit + 1, ttl * 1000, true, ttl * 1000)) else Cleared)
  }

  function DoIncr(s: State, call: nat): State {
    var opens := s.counter.None?;
    var starts := if opens then s.starts + [s.now] else s.starts;
    var count := if opens then 1 else s.counter.value.count + 1;
    var deadline := if opens then None else s.counter.value.deadline;
    var life := if |starts| == 0 then 0 else |starts| - 1;
    var hit := Hit(life, count, s.now);
    Put(s.(counter := Some(Counter(count, deadline)), starts := starts), call,
        if count == 1 then Expiring(hit) else Reading(hit))
  }

  /** EXPIRE with a time that is not positive deletes the key. */
  function DoExpire(cfg: Config, s: State, call: nat, hit: Hit): State {
    var seconds := CeilSeconds(cfg.ttl);
    var counter :=
      if s.counter.None? || seconds <= 0 then None
      else Some(s.counter.value.(deadline := Some(s.now + seconds * 1000)));
    Put(s.(counter := counter), call, Reading(hit))
  }

  function DoRead(cfg: Config, s: State, call: nat, hit: Hit): State {
    var ttl := HitsTtl(s);
    Put(s, call,
        if hit.number > cfg.limit && cfg.blockDuration > 0 then Blocking(hit, ttl)
        else Answered(hit, Answer(hit.number, ttl * 1000, false, 0)))
  }

  function DoBlock(cfg: Config, s: State, call: nat, hit: Hit, remaining: int): State {
    Put(s.(block := Some(s.now + CeilSeconds(cfg.blockDuration) * 1000)), call,
        Answered(hit, Answer(hit.number, remaining * 1000, true, cfg.blockDuration)))
  }

  function Next(cfg: Config, s: State, step: Step): State {
    match step
    case Arrive(c) => if c in s.calls then s else Put(s, c, Asked)
    case CheckBlock(c) => if c in s.calls && s.calls[c].Asked? then DoCheck(cfg, s, c) else s
    case Incr(c) => if c in s.calls && s.calls[c].Cleared? then DoIncr(s, c) else s
    case Expire(c) => if c in s.calls && s.calls[c].Expiring? then DoExpire(cfg, s, c, s.calls[c].hit) else s
    case ReadTtl(c) => if c in s.calls && s.calls[c].Reading? then DoRead(cfg, s, c, s.calls[c].hit) else s
    case SetBlock(c) =>
      if c in s.calls && s.calls[c].Blocking? then DoBlock(cfg, s, c, s.calls[c].hit, s.calls[c].remaining) else s
    case Tick(elapsed) => AdvanceTo(s, s.now + elapsed)
    case Crash(c) => s.(calls := s.calls - {c})
  }

  function Run(cfg: Config, s: State, steps: seq<Step>): State
    decreases |steps|
  {
    if steps == [] then s else Run(cfg, Next(cfg, s, steps[0]), steps[1..])
  }

  // -- Numbers within a lifetime are never given twice ------------------------

  predicate HasHit(stage: Stage) {
    stage.Expiring? || stage.Reading? || stage.Blocking? || stage.Answered?
  }

  function HitOf(stage: Stage): Hit
    requires HasHit(stage)
  {
    stage.hit
  }

  predicate Counted(s: State, c: nat) {
    c in s.calls && HasHit(s.calls[c])
  }

  function HitAt(s: State, c: nat): Hit
    requires Counted(s, c)
  {
    HitOf(s.calls[c])
  }

  /** Each number belongs to a lifetime that has begun, and in the current one it does not
      exceed the count. */
  ghost predicate NumbersInPlace(s: State) {
    forall c :: Counted(s, c) ==>
      var h := HitAt(s, c);
      && h.life < |s.starts| && h.number >= 1
      && (s.counter.Some? && h.life == |s.starts| - 1 ==> h.number <= s.counter.value.count)
  }

  ghost predicate NumbersDiffer(s: State) {
    forall c, d :: Counted(s, c) && Counted(s, d) && c != d && HitAt(s, c).life == HitAt(s, d).life
      ==> HitAt(s, c).number != HitAt(s, d).number
  }

  /** A counted call learns its number, and is blocked exactly when that exceeds the limit. */
  ghost predicate AnswersInPlace(cfg: Config, s: State) {
    forall c :: c in s.calls && s.calls[c].Answered? ==>
      var h, a := s.calls[c].hit, s.calls[c].answer;
      && a.totalHits == h.number
      && a.isBlocked == (h.number > cfg.limit && cfg.blockDuration > 0)
      && a.timeToBlockExpire == if a.isBlocked then cfg.blockDuration else 0
  }

  ghost predicate Sound(cfg: Config, s: State) {
    && (s.counter.Some? ==> s.starts != [])
    && NumbersInPlace(s) && NumbersDiffer(s) && AnswersInPlace(cfg, s)
    && forall c :: c in s.calls && s.calls[c].Blocking? ==> s.calls[c].hit.number > cfg.limit && cfg.blockDuration > 0
  }

  lemma IncrSound(cfg: Config, s: State, c: nat)
    requires Sound(cfg, s) && c in s.calls && s.calls[c].Cleared?
    ensures Sound(cfg, DoIncr(s, c))
  {
    var s' := DoIncr(s, c);
    forall d | Counted(s', d) && d != c ensures Counted(s, d) && HitAt(s', d) == HitAt(s, d) {}
  }

  /** Steps that give out no number. */
  lemma OtherSound(cfg: Config, s: State, step: Step)
    requires Sound(cfg, s) && !step.Incr?
    ensures Sound(cfg, Next(cfg, s, step))
  {
    var s' := Next(cfg, s, step);
    forall d | Counted(s', d) ensures Counted(s, d) && HitAt(s', d) == HitAt(s, d) {}
  }

  lemma StepSound(cfg: Config, s: State, step: Step)
    requires Sound(cfg, s)
    ensures Sound(cfg, Next(cfg, s, step))
  {
    if step.Incr? && step.call in s.calls && s.calls[step.call].Cleared? {
      IncrSound(cfg, s, step.call);
    } else if !step.Incr? {
      OtherSound(cfg, s, step);
    }
  }

  lemma {:induction false} RunSound(cfg: Config, s: State, steps: seq<Step>)
    requires Sound(cfg, s)
    ensures Sound(cfg, Run(cfg, s, steps))
    decreases |steps|
  {
    if steps != [] {
      StepSound(cfg, s, steps[0]);
      RunSound(cfg, Next(cfg, s, steps[0]), steps[1..]);
    }
  }

  /** The calls answered "not blocked" whose INCR fell into lifetime `life`. */
  function Through(s: State, life: nat): set<nat> {
    set c | c in s.calls && s.calls[c].Answered? && !s.calls[c].answer.isBlocked && s.calls[c].hit.life == life
  }

  function LifeOf(s: State): map<nat, int> {
    map c | c in s.calls :: if HasHit(s.calls[c]) then s.calls[c].hit.life else -1
  }

  function NumberOf(s: State): map<nat, int> {
    map c | c in s.calls :: if HasHit(s.calls[c]) then s.calls[c].hit.number else -1
  }

  lemma SoundLimits(cfg: Config, s: State, life: nat)
    requires Sound(cfg, s) && cfg.blockDuration > 0
    ensures |Through(s, life)| <= Max(0, cfg.limit)
  {
    var t := Through(s, life);
    forall c | c in t ensures Counted(s, c) && NumberOf(s)[c] == HitAt(s, c).number {}
    DistinctNumbers(t, NumberOf(s), Max(0, cfg.limit));
  }

  /** For any number of calls and any interleaving, crashes included, at most `limit` calls get
      through in one lifetime of the hits key. */
  lemma DistributedLimit(cfg: Config, steps: seq<Step>, life: nat)
    requires cfg.blockDuration > 0
    ensures |Through(Run(cfg, INITIAL, steps), life)| <= Max(0, cfg.limit)
  {
    RunSound(cfg, INITIAL, steps);
    SoundLimits(cfg, Run(cfg, INITIAL, steps), life);
  }

  /** The number in an answer decides it; without a block duration nothing is ever blocked. */
  lemma AnswersFollowNumbers(cfg: Config, steps: seq<Step>, c: nat)
    ensures var s := Run(cfg, INITIAL, steps);
            c in s.calls && s.calls[c].Answered? ==>
              var h, a := s.calls[c].hit, s.calls[c].answer;
              a.totalHits == h.number && (a.isBlocked <==> h.number > cfg.limit && cfg.blockDuration > 0)
  {
    RunSound(cfg, INITIAL, steps);
  }

  // -- Which number a call gets -----------------------------------------------

  predicate Executes(s: State, step: Step) {
    step.Incr? && step.call in s.calls && s.calls[step.call].Cleared?
  }

  /** The lifetime an INCR falls into: a new one if the key is absent. */
  function LifeNow(s: State): nat {
    if s.counter.None? || s.starts == [] then |s.starts| else |s.starts| - 1
  }

  /** How many INCRs of a run fell into lifetime `life`. */
  function Incrs(cfg: Config, s: State, steps: seq<Step>, life: nat): nat
    decreases |steps|
  {
    if steps == [] then 0 else
      (if Executes(s, steps[0]) && LifeNow(s) == life then 1 else 0) + Incrs(cfg, Next(cfg, s, steps[0]), steps[1..], life)
  }

  /** What the key already counts towards a lifetime. */
  function CountOf(s: State, life: nat): nat {
    if s.counter.Some? && life == |s.starts| - 1 then s.counter.value.count else 0
  }

  /** An INCR adds one to its lifetime; other steps leave the current lifetime alone or end it. */
  lemma CountStep(cfg: Config, s: State, step: Step, life: nat)
    requires s.counter.Some? ==> s.starts != []
    ensures var s', one := Next(cfg, s, step), if Executes(s, step) && LifeNow(s) == life then 1 else 0;
            && |s'.starts| >= |s.starts| && (s'.counter.Some? ==> s'.starts != [])
            && (s.counter.None? && s'.counter.Some? ==> |s'.starts| > |s.starts|)
            && (CountOf(s', life) == CountOf(s, life) + one || (CountOf(s', life) == 0 == one && s'.counter.None?))
  {
  }

  lemma {:induction false} CountRun(cfg: Config, s: State, steps: seq<Step>)
    requires s.counter.Some? ==> s.starts != []
    ensures var s' := Run(cfg, s, steps);
            && |s'.starts| >= |s.starts| && (s'.counter.Some? ==> s'.starts != [])
            && (s.counter.None? && s'.counter.Some? ==> |s'.starts| > |s.starts|)
            && (s'.counter.Some? ==>
                  s'.counter.value.count == CountOf(s, |s'.starts| - 1) + Incrs(cfg, s, steps, |s'.starts| - 1))
    decreases |steps|
  {
    if steps != [] {
      var s1, s' := Next(cfg, s, steps[0]), Run(cfg, s, steps);
      CountRun(cfg, s1, steps[1..]);
      if s'.counter.Some? {
        CountStep(cfg, s, steps[0], |s'.starts| - 1);
      } else {
        CountStep(cfg, s, steps[0], 0);
      }
    }
  }

  /** The INCRs of lifetimes still to begin. */
  lemma {:induction false} NoIncrsYet(cfg: Config, s: State, steps: seq<Step>, life: nat)
    requires (s.counter.Some? ==> s.starts != []) && |Run(cfg, s, steps).starts| <= life
    ensures Incrs(cfg, s, steps, life) == 0
    decreases |steps|
  {
    if steps != [] {
      var s1 := Next(cfg, s, steps[0]);
      CountStep(cfg, s, steps[0], life);
      CountRun(cfg, s1, steps[1..]);
      NoIncrsYet(cfg, s1, steps[1..], life);
      assert Executes(s, steps[0]) ==> LifeNow(s) < |s1.starts|;
    }
  }

  lemma {:induction false} HitPersists(cfg: Config, s: State, steps: seq<Step>, c: nat)
    requires Counted(s, c) && forall i :: 0 <= i < |steps| ==> steps[i] != Crash(c)
    ensures Counted(Run(cfg, s, steps), c) && HitAt(Run(cfg, s, steps), c) == HitAt(s, c)
    decreases |steps|
  {
    if steps != [] {
      assert Counted(Next(cfg, s, steps[0]), c) && HitAt(Next(cfg, s, steps[0]), c) == HitAt(s, c);
      HitPersists(cfg, Next(cfg, s, steps[0]), steps[1..], c);
    }
  }

  /** On every run the number a call gets is one more than the INCRs executed in its lifetime
      before its own, and that number is what it is told and what decides its answer. */
  lemma NumberIsCount(cfg: Config, before: seq<Step>, c: nat, since: seq<Step>)
    requires var s := Run(cfg, INITIAL, before); c in s.calls && s.calls[c].Cleared?
    requires forall i :: 0 <= i < |since| ==> since[i] != Crash(c)
    ensures var s := Run(cfg, INITIAL, before);
            var n, s' := Incrs(cfg, INITIAL, before, LifeNow(s)) + 1, Run(cfg, Next(cfg, s, Incr(c)), since);
            && Counted(s', c) && HitAt(s', c) == Hit(LifeNow(s), n, s.now)
            && (s'.calls[c].Answered? ==>
                  var a := s'.calls[c].answer;
                  && a.totalHits == n && (a.isBlocked <==> n > cfg.limit && cfg.blockDuration > 0)
                  && a.timeToBlockExpire == if a.isBlocked then cfg.blockDuration else 0)
  {
    var s := Run(cfg, INITIAL, before);
    var s1 := Next(cfg, s, Incr(c));
    CountRun(cfg, INITIAL, before);
    if s.counter.None? {
      NoIncrsYet(cfg, INITIAL, before, LifeNow(s));
    }
    HitPersists(cfg, s1, since, c);
    RunSound(cfg, INITIAL, before);
    StepSound(cfg, s, Incr(c));
    RunSound(cfg, s1, since);
  }

  /** No number exceeds the INCRs of its lifetime. */
  lemma {:induction false} NumbersBounded(cfg: Config, s: State, steps: seq<Step>, c: nat)
    requires (s.counter.Some? ==> s.starts != []) && Counted(Run(cfg, s, steps), c)
    ensures var h := HitAt(Run(cfg, s, steps), c);
            || (Counted(s, c) && HitAt(s, c) == h)
            || h.number <= CountOf(s, h.life) + Incrs(cfg, s, steps, h.life)
    decreases |steps|
  {
    if steps != [] {
      var s1, h := Next(cfg, s, steps[0]), HitAt(Run(cfg, s, steps), c);
      CountStep(cfg, s, steps[0], h.life);
      NumbersBounded(cfg, s1, steps[1..], c);
      if Counted(s1, c) && HitAt(s1, c) == h {
        NumberGiven(cfg, s, steps[0], c);
      }
    }
  }

  lemma NumberGiven(cfg: Config, s: State, step: Step, c: nat)
    requires (s.counter.Some? ==> s.starts != []) && Counted(Next(cfg, s, step), c)
    ensures var h := HitAt(Next(cfg, s, step), c);
            || (Counted(s, c) && HitAt(s, c) == h)
            || (Executes(s, step) && h.life == LifeNow(s) && h.number == CountOf(s, h.life) + 1)
  {
  }

  /** The limiter never blocks too early: if at most `limit` INCRs fell into a lifetime, no call
      counted in it is answered blocked. */
  lemma FirstCallsPass(cfg: Config, steps: seq<Step>, life: nat)
    requires Incrs(cfg, INITIAL, steps, life) <= cfg.limit
    ensures var s := Run(cfg, INITIAL, steps);
            forall c :: c in s.calls && s.calls[c].Answered? && s.calls[c].hit.life == life ==> !s.calls[c].answer.isBlocked
  {
    var s := Run(cfg, INITIAL, steps);
    RunSound(cfg, INITIAL, steps);
    forall c | c in s.calls && s.calls[c].Answered? && s.calls[c].hit.life == life ensures !s.calls[c].answer.isBlocked {
      NumbersBounded(cfg, INITIAL, steps, c);
    }
  }

  // -- What the answers say of time -------------------------------------------

  lemma CeilSecondsExactly(ms: int)
    ensures 0 <= CeilSeconds(ms) * 1000 - ms < 1000
  {
    DivBounds(-ms, 1000);
  }

  /** `told` is -2000 without the key, -1000 without an expiry, and otherwise a number of whole
      seconds within half a second of the time left. */
  predicate TellsExpiry(told: int, s: State) {
    if s.counter.None? then told == -2000
    else match s.counter.value.deadline
      case None => told == -1000
      case Some(d) => told % 1000 == 0 && -500 < told - (d - s.now) <= 500
  }

  /** The expiry a counted call reports is the one TTL found when the call asked, whether it is
      then blocked or not. */
  lemma AnswerTellsExpiry(cfg: Config, s: State, c: nat, since: seq<Step>)
    requires c in s.calls && s.calls[c].Reading? && forall i :: 0 <= i < |since| ==> since[i] != Crash(c)
    ensures var s' := Run(cfg, Next(cfg, s, ReadTtl(c)), since);
            c in s'.calls && s'.calls[c].Answered? ==> TellsExpiry(s'.calls[c].answer.timeToExpire, s)
  {
    if s.counter.Some? && s.counter.value.deadline.Some? {
      DivBounds(s.counter.value.deadline.value - s.now + 500, 1000);
    }
    Remembers(cfg, Next(cfg, s, ReadTtl(c)), since, c, HitsTtl(s));
  }

  /** The call has been told a TTL and not forgotten it. */
  predicate Knows(s: State, c: nat, ttl: int) {
    && c in s.calls
    && (s.calls[c].Blocking? || s.calls[c].Answered?)
    && (s.calls[c].Blocking? ==> s.calls[c].remaining == ttl)
    && (s.calls[c].Answered? ==> s.calls[c].answer.timeToExpire == ttl * 1000)
  }

  lemma {:induction false} Remembers(cfg: Config, s: State, steps: seq<Step>, c: nat, ttl: int)
    requires Knows(s, c, ttl) && forall i :: 0 <= i < |steps| ==> steps[i] != Crash(c)
    ensures Knows(Run(cfg, s, steps), c, ttl)
    decreases |steps|
  {
    if steps != [] {
      assert Knows(Next(cfg, s, steps[0]), c, ttl);
      Remembers(cfg, Next(cfg, s, steps[0]), steps[1..], c, ttl);
    }
  }

  // -- The expiry of the hits key ---------------------------------------------

  /** Only the call whose INCR created the key is about to set its expiry, on the lifetime it
      created. */
  ghost predicate ExpiryInPlace(s: State) {
    && (forall c :: c in s.calls && s.calls[c].Expiring? ==>
          && s.counter.Some? && s.counter.value.deadline == None
          && s.calls[c].hit.life == |s.starts| - 1 && s.calls[c].hit.number == 1)
    && (forall c, d :: c in s.calls && d in s.calls && s.calls[c].Expiring? && s.calls[d].Expiring? ==> c == d)
    && (s.counter.Some? ==> s.starts != [] && s.counter.value.count >= 1)
  }

  predicate SomeExpiring(s: State) {
    exists c :: c in s.calls && s.calls[c].Expiring?
  }

  lemma ExpiryStep(cfg: Config, s: State, step: Step)
    requires ExpiryInPlace(s)
    ensures ExpiryInPlace(Next(cfg, s, step))
  {
    var s' := Next(cfg, s, step);
    forall c | c in s'.calls && s'.calls[c].Expiring? && !(step.Incr? && c == step.call)
      ensures c in s.calls && s.calls[c] == s'.calls[c]
    {
    }
  }

  /** The hits key is there and will not expire. */
  predicate Unexpiring(s: State) {
    s.counter.Some? && s.counter.value.deadline == None
  }

  /** The step is the death of the call that was to set the expiry. */
  predicate LosesExpire(s: State, step: Step) {
    step.Crash? && step.call in s.calls && s.calls[step.call].Expiring?
  }

  /** Some call of the run died between its INCR that returned 1 and its EXPIRE. */
  predicate ExpireLost(cfg: Config, s: State, steps: seq<Step>)
    decreases |steps|
  {
    steps != [] && (LosesExpire(s, steps[0]) || ExpireLost(cfg, Next(cfg, s, steps[0]), steps[1..]))
  }

  /** Otherwise a key without an expiry is one whose EXPIRE is still to come. */
  lemma UnexpiringStep(cfg: Config, s: State, step: Step)
    requires ExpiryInPlace(s) && !LosesExpire(s, step)
    requires Unexpiring(s) ==> SomeExpiring(s)
    ensures Unexpiring(Next(cfg, s, step)) ==> SomeExpiring(Next(cfg, s, step))
  {
    var s' := Next(cfg, s, step);
    if Unexpiring(s') {
      if Unexpiring(s) {
        var c :| c in s.calls && s.calls[c].Expiring?;
        assert c in s'.calls && s'.calls[c].Expiring?;
      } else {
        assert s'.calls[step.call].Expiring?;
      }
    }
  }

  /** The key has no expiry and no call is left to set one. */
  predicate Abandoned(s: State) {
    Unexpiring(s) && !SomeExpiring(s)
  }

  predicate Pinned(s: State, life: nat) {
    Abandoned(s) && life == |s.starts| - 1
  }

  lemma PinnedStep(cfg: Config, s: State, step: Step, life: nat)
    requires ExpiryInPlace(s) && Pinned(s, life)
    ensures Pinned(Next(cfg, s, step), life) && Next(cfg, s, step).starts == s.starts
  {
    var s' := Next(cfg, s, step);
    forall c | c in s'.calls ensures !s'.calls[c].Expiring? {
      if c in s.calls {
        assert !s.calls[c].Expiring?;
      }
    }
  }

  lemma {:induction false} PinnedForever(cfg: Config, s: State, steps: seq<Step>, life: nat)
    requires ExpiryInPlace(s) && Pinned(s, life)
    ensures var s' := Run(cfg, s, steps);
            ExpiryInPlace(s') && Pinned(s', life) && s'.starts == s.starts
    decreases |steps|
  {
    if steps != [] {
      ExpiryStep(cfg, s, steps[0]);
      PinnedStep(cfg, s, steps[0], life);
      PinnedForever(cfg, Next(cfg, s, steps[0]), steps[1..], life);
    }
  }

  /** The death of the call about to send EXPIRE pins the key at once. */
  lemma LossPins(cfg: Config, s: State, c: nat)
    requires ExpiryInPlace(s) && LosesExpire(s, Crash(c))
    ensures Pinned(Next(cfg, s, Crash(c)), |s.starts| - 1)
  {
    forall d | d in s.calls && d != c ensures !s.calls[d].Expiring? {}
  }

  lemma {:induction false} ExpiryRun(cfg: Config, s: State, steps: seq<Step>)
    requires ExpiryInPlace(s) && (Unexpiring(s) ==> SomeExpiring(s))
    ensures ExpiryInPlace(Run(cfg, s, steps))
    ensures Abandoned(Run(cfg, s, steps)) <==> ExpireLost(cfg, s, steps)
    decreases |steps|
  {
    if steps != [] {
      var s1 := Next(cfg, s, steps[0]);
      ExpiryStep(cfg, s, steps[0]);
      if LosesExpire(s, steps[0]) {
        LossPins(cfg, s, steps[0].call);
        PinnedForever(cfg, s1, steps[1..], |s.starts| - 1);
      } else {
        UnexpiringStep(cfg, s, steps[0]);
        ExpiryRun(cfg, s1, steps[1..]);
      }
    }
  }

  /** On every run, the key is left without an expiry and without a call to set one exactly when
      some call died between its INCR that returned 1 and its EXPIRE. */
  lemma PinnedExactly(cfg: Config, steps: seq<Step>)
    ensures Abandoned(Run(cfg, INITIAL, steps)) <==> ExpireLost(cfg, INITIAL, steps)
  {
    ExpiryRun(cfg, INITIAL, steps);
  }

  /** The key lacks an expiry exactly while one call stands between its INCR that returned 1 and
      its EXPIRE, and that EXPIRE lands on the lifetime it began, unless such a call has died. */
  lemma UnexpiringExactly(cfg: Config, steps: seq<Step>)
    ensures var s := Run(cfg, INITIAL, steps);
            && ((Unexpiring(s) <==> SomeExpiring(s)) <==> !ExpireLost(cfg, INITIAL, steps))
            && forall c :: c in s.calls && s.calls[c].Expiring? ==> s.calls[c].hit.life == |s.starts| - 1
  {
    ExpiryRun(cfg, INITIAL, steps);
  }

  /** A process that dies between INCR and EXPIRE pins the key: on no continuation does it ever
      expire, so that one lifetime serves at most `limit` calls for ever. */
  lemma CrashPinsKey(cfg: Config, s: State, steps: seq<Step>, life: nat)
    requires Sound(cfg, s) && ExpiryInPlace(s) && Pinned(s, life) && cfg.blockDuration > 0
    ensures var s' := Run(cfg, s, steps);
            Pinned(s', life) && s'.starts == s.starts && |Through(s', life)| <= Max(0, cfg.limit)
  {
    PinnedForever(cfg, s, steps, life);
    RunSound(cfg, s, steps);
    SoundLimits(cfg, Run(cfg, s, steps), life);
  }

  lemma CrashBetweenIncrAndExpire(cfg: Config, c: nat)
    ensures Pinned(Run(cfg, INITIAL, [Arrive(c), CheckBlock(c), Incr(c), Crash(c)]), 0)
  {
    RunFour(cfg, INITIAL, Arrive(c), CheckBlock(c), Incr(c), Crash(c));
    var s2 := Next(cfg, Next(cfg, INITIAL, Arrive(c)), CheckBlock(c));
    assert s2.calls[c] == Cleared;
    var s4 := Next(cfg, Next(cfg, s2, Incr(c)), Crash(c));
    assert c !in s4.calls;
  }

  lemma RunFour(cfg: Config, s: State, a: Step, b: Step, c: Step, d: Step)
    ensures Run(cfg, s, [a, b, c, d]) == Next(cfg, Next(cfg, Next(cfg, Next(cfg, s, a), b), c), d)
  {
    var s1 := Next(cfg, s, a);
    var s2 := Next(cfg, s1, b);
    var s3 := Next(cfg, s2, c);
    assert [a, b, c, d][1..] == [b, c, d] && [b, c, d][1..] == [c, d] && [c, d][1..] == [d];
    assert Run(cfg, s1, [b, c, d]) == Run(cfg, s2, [c, d]);
    assert Run(cfg, s2, [c, d]) == Run(cfg, s3, [d]);
    assert Run(cfg, s3, [d]) == Run(cfg, Next(cfg, s3, d), []);
  }

  // -- Deadlines --------------------------------------------------------------

  /** How long a lifetime lasts once its expiry is set. */
  function WindowMs(cfg: Config): int {
    CeilSeconds(cfg.ttl) * 1000
  }

  function BlockMs(cfg: Config): int {
    CeilSeconds(cfg.blockDuration) * 1000
  }

  /** No key outlives the time it was given. */
  ghost predicate DeadlinesInPlace(cfg: Config, s: State) {
    && (s.counter.Some? && s.counter.value.deadline.Some? ==> s.counter.value.deadline.value <= s.now + WindowMs(cfg))
    && (s.block.Some? ==> s.block.value <= s.now + BlockMs(cfg))
  }

  lemma {:induction false} DeadlinesRun(cfg: Config, s: State, steps: seq<Step>)
    requires DeadlinesInPlace(cfg, s)
    ensures DeadlinesInPlace(cfg, Run(cfg, s, steps))
    decreases |steps|
  {
    if steps != [] {
      assert DeadlinesInPlace(cfg, Next(cfg, s, steps[0]));
      DeadlinesRun(cfg, Next(cfg, s, steps[0]), steps[1..]);
    }
  }

  /** Once no call is about to set the expiry, the call that is counted after a pause longer than
      the window gets number 1 exactly when no expiry was lost before. */
  lemma PauseRenewsLimit(cfg: Config, steps: seq<Step>, pause: nat, c: nat)
    requires !SomeExpiring(Run(cfg, INITIAL, steps)) && pause > WindowMs(cfg)
    requires c in Run(cfg, INITIAL, steps).calls && Run(cfg, INITIAL, steps).calls[c].Cleared?
    ensures var s := Next(cfg, Run(cfg, INITIAL, steps), Tick(pause));
            && Counted(Next(cfg, s, Incr(c)), c)
            && (HitAt(Next(cfg, s, Incr(c)), c).number == 1 <==> !ExpireLost(cfg, INITIAL, steps))
            && (s.counter.None? <==> !ExpireLost(cfg, INITIAL, steps))
  {
    DeadlinesRun(cfg, INITIAL, steps);
    ExpiryRun(cfg, INITIAL, steps);
  }

  /** The block set at `d` is still there or over; it is never shortened. */
  ghost predicate BlockedUntil(s: State, d: int) {
    s.now > d || (s.block.Some? && s.block.value >= d)
  }

  lemma {:induction false} BlockPersists(cfg: Config, s: State, steps: seq<Step>, d: int)
    requires DeadlinesInPlace(cfg, s) && BlockedUntil(s, d)
    ensures BlockedUntil(Run(cfg, s, steps), d)
    decreases |steps|
  {
    if steps != [] {
      assert DeadlinesInPlace(cfg, Next(cfg, s, steps[0]));
      assert BlockedUntil(Next(cfg, s, steps[0]), d);
      BlockPersists(cfg, Next(cfg, s, steps[0]), steps[1..], d);
    }
  }

  /** A check is a rejection exactly while at least half a second of the block is left: the reply
      of TTL rounds less than that down to zero. It never touches the counter. */
  lemma CheckRejectsExactly(cfg: Config, s: State, c: nat)
    requires c in s.calls && s.calls[c].Asked?
    ensures var s' := Next(cfg, s, CheckBlock(c));
            && s'.counter == s.counter && s'.block == s.block
            && (s.block.Some? && s.block.value - s.now >= 500 <==> s'.calls[c].Rejected?)
            && (s'.calls[c].Rejected? ==>
                  var a := s'.calls[c].answer;
                  && a.isBlocked && a.totalHits == cfg.limit + 1 && a.timeToExpire == a.timeToBlockExpire
                  && a.timeToExpire % 1000 == 0 && -500 < a.timeToExpire - (s.block.value - s.now) <= 500)
            && (!s'.calls[c].Rejected? ==> s'.calls[c].Cleared?)
  {
    if s.block.Some? {
      var left := s.block.value - s.now;
      DivBounds(left + 500, 1000);
    }
  }

  /** From the moment one call sets the block, and until less than half a second of it is left,
      every check by any call is a rejection that leaves the counter alone. */
  lemma BlockRejectsEveryCheck(cfg: Config, before: seq<Step>, b: nat, since: seq<Step>, c: nat)
    requires var s := Run(cfg, INITIAL, before); b in s.calls && s.calls[b].Blocking?
    requires var s := Run(cfg, Next(cfg, Run(cfg, INITIAL, before), SetBlock(b)), since);
             c in s.calls && s.calls[c].Asked?
             && s.now + 500 <= Run(cfg, INITIAL, before).now + BlockMs(cfg)
    ensures var s := Run(cfg, Next(cfg, Run(cfg, INITIAL, before), SetBlock(b)), since);
            var s' := Next(cfg, s, CheckBlock(c));
            s'.calls[c].Rejected? && s'.calls[c].answer.isBlocked && s'.counter == s.counter
  {
    var s0 := Run(cfg, INITIAL, before);
    var s1 := Next(cfg, s0, SetBlock(b));
    DeadlinesRun(cfg, INITIAL, before);
    BlockPersists(cfg, s1, since, s0.now + BlockMs(cfg));
    CheckRejectsExactly(cfg, Run(cfg, s1, since), c);
  }

  /** A block not renewed lets a call through before it ends: a check in its last half second
      passes, with the block key still there. */
  lemma LastHalfSecondPasses(cfg: Config, before: seq<Step>, b: nat, c: nat, left: nat)
    requires var s := Run(cfg, INITIAL, before);
             b in s.calls && s.calls[b].Blocking? && c !in s.calls
    requires left < 500 && left <= BlockMs(cfg)
    ensures var s := Run(cfg, Run(cfg, INITIAL, before),
                         [SetBlock(b), Tick(BlockMs(cfg) - left), Arrive(c), CheckBlock(c)]);
            && s.block == Some(Run(cfg, INITIAL, before).now + BlockMs(cfg)) && s.block.value == s.now + left
            && c in s.calls && s.calls[c] == Cleared
  {
    var s0 := Run(cfg, INITIAL, before);
    RunFour(cfg, s0, SetBlock(b), Tick(BlockMs(cfg) - left), Arrive(c), CheckBlock(c));
    CheckRejectsExactly(cfg, Next(cfg, Next(cfg, Next(cfg, s0, SetBlock(b)), Tick(BlockMs(cfg) - left)), Arrive(c)), c);
  }

  // -- How many calls get through in a period ---------------------------------

  /** Lifetimes begin more than a window apart: an expiring key is gone only after its deadline. */
  ghost predicate KeyTimes(cfg: Config, s: State) {
    && (forall i :: 0 <= i < |s.starts| ==> s.starts[i] <= s.now)
    && (forall i :: 0 < i < |s.starts| ==> s.starts[i] > s.starts[i - 1] + WindowMs(cfg))
    && (s.counter.Some? ==> s.starts != [])
    && (s.counter.Some? && s.counter.value.deadline.Some? ==>
          && s.counter.value.deadline.value >= s.starts[|s.starts| - 1] + WindowMs(cfg)
          && s.counter.value.deadline.value >= s.now)
    && (s.counter.None? && s.starts != [] ==> s.now > s.starts[|s.starts| - 1] + WindowMs(cfg))
  }

  /** Every number was given out during its lifetime, before the next one began. */
  ghost predicate HitTimes(s: State) {
    forall c :: Counted(s, c) ==>
      var h := HitAt(s, c);
      && h.life < |s.starts| && s.starts[h.life] <= h.at <= s.now
      && (h.life + 1 < |s.starts| ==> h.at < s.starts[h.life + 1])
      && (h.life + 1 == |s.starts| && s.counter.None? ==> h.at < s.now)
  }

  ghost predicate TimesInPlace(cfg: Config, s: State) {
    KeyTimes(cfg, s) && HitTimes(s)
  }

  lemma KeyTimesIncr(cfg: Config, s: State, c: nat)
    requires cfg.ttl > 0 && KeyTimes(cfg, s)
    ensures KeyTimes(cfg, DoIncr(s, c))
  {
    var n := |s.starts|;
    if s.counter.None? {
      var starts' := s.starts + [s.now];
      assert starts'[n] == s.now && (n > 0 ==> starts'[n - 1] == s.starts[n - 1]);
    }
  }

  lemma KeyTimesExpire(cfg: Config, s: State, c: nat, hit: Hit)
    requires cfg.ttl > 0 && KeyTimes(cfg, s)
    ensures KeyTimes(cfg, DoExpire(cfg, s, c, hit))
  {
  }

  lemma KeyTimesTick(cfg: Config, s: State, elapsed: nat)
    requires cfg.ttl > 0 && KeyTimes(cfg, s)
    ensures KeyTimes(cfg, Next(cfg, s, Tick(elapsed)))
  {
  }

  lemma KeyTimesStep(cfg: Config, s: State, step: Step)
    requires cfg.ttl > 0 && KeyTimes(cfg, s)
    ensures KeyTimes(cfg, Next(cfg, s, step))
  {
    match step
    case Incr(c) => KeyTimesIncr(cfg, s, c);
    case Expire(c) =>
      if c in s.calls && s.calls[c].Expiring? {
        KeyTimesExpire(cfg, s, c, s.calls[c].hit);
      }
    case Tick(elapsed) => KeyTimesTick(cfg, s, elapsed);
    case _ =>
      var s' := Next(cfg, s, step);
      assert s'.starts == s.starts && s'.counter == s.counter && s'.now == s.now;
  }

  lemma HitTimesIncr(cfg: Config, s: State, c: nat)
    requires KeyTimes(cfg, s) && HitTimes(s) && c in s.calls && s.calls[c].Cleared?
    ensures HitTimes(DoIncr(s, c))
  {
    var s' := DoIncr(s, c);
    assert s.starts <= s'.starts;
    assert |s'.starts| > |s.starts| ==> s'.starts[|s.starts|] == s.now;
    forall d | Counted(s', d) && d != c ensures Counted(s, d) && HitAt(s', d) == HitAt(s, d) {}
  }

  lemma HitTimesTick(cfg: Config, s: State, elapsed: nat)
    requires KeyTimes(cfg, s) && HitTimes(s)
    ensures HitTimes(Next(cfg, s, Tick(elapsed)))
  {
    var s' := Next(cfg, s, Tick(elapsed));
    assert s.counter.Some? && s'.counter.None? ==> s.now < s'.now;
    forall d | Counted(s', d) ensures Counted(s, d) && HitAt(s', d) == HitAt(s, d) {}
  }

  lemma HitTimesOther(cfg: Config, s: State, step: Step)
    requires cfg.ttl > 0 && HitTimes(s) && !step.Incr? && !step.Tick?
    ensures HitTimes(Next(cfg, s, step))
  {
    var s' := Next(cfg, s, step);
    assert s'.starts == s.starts && s.now == s'.now && (s'.counter.None? ==> s.counter.None?);
    forall d | Counted(s', d) ensures Counted(s, d) && HitAt(s', d) == HitAt(s, d) {}
  }

  lemma TimesStep(cfg: Config, s: State, step: Step)
    requires cfg.ttl > 0 && TimesInPlace(cfg, s)
    ensures TimesInPlace(cfg, Next(cfg, s, step))
  {
    KeyTimesStep(cfg, s, step);
    if step.Incr? && step.call in s.calls && s.calls[step.call].Cleared? {
      HitTimesIncr(cfg, s, step.call);
    } else if step.Tick? {
      HitTimesTick(cfg, s, step.elapsed);
    } else if !step.Incr? {
      HitTimesOther(cfg, s, step);
    }
  }

  lemma {:induction false} TimesRun(cfg: Config, s: State, steps: seq<Step>)
    requires cfg.ttl > 0 && TimesInPlace(cfg, s)
    ensures TimesInPlace(cfg, Run(cfg, s, steps))
    decreases |steps|
  {
    if steps != [] {
      TimesStep(cfg, s, steps[0]);
      TimesRun(cfg, Next(cfg, s, steps[0]), steps[1..]);
    }
  }

  lemma {:induction false} StartsApart(cfg: Config, s: State, i: nat, j: nat)
    requires TimesInPlace(cfg, s) && i <= j < |s.starts|
    ensures s.starts[j] - s.starts[i] >= (WindowMs(cfg) + 1) * (j - i)
    decreases j
  {
    if i < j {
      StartsApart(cfg, s, i, j - 1);
      assert (WindowMs(cfg) + 1) * (j - i) == (WindowMs(cfg) + 1) * (j - 1 - i) + (WindowMs(cfg) + 1);
    }
  }

  /** The calls answered "not blocked" that were counted in the closed interval from `lo` to `hi`. */
  function ThroughBetween(s: State, lo: int, hi: int): set<nat> {
    set c | c in s.calls && s.calls[c].Answered? && !s.calls[c].answer.isBlocked && lo <= s.calls[c].hit.at <= hi
  }

  lemma LivesClose(cfg: Config, s: State, lo: int, period: nat, c: nat, d: nat)
    requires cfg.ttl > 0 && TimesInPlace(cfg, s) && WindowMs(cfg) > 0
    requires c in ThroughBetween(s, lo, lo + period) && d in ThroughBetween(s, lo, lo + period)
    ensures s.calls[d].hit.life - s.calls[c].hit.life <= CeilDiv(period, WindowMs(cfg) + 1)
  {
    assert Counted(s, c) && Counted(s, d);
    var i, j := HitAt(s, c).life, HitAt(s, d).life;
    if i < j {
      StartsApart(cfg, s, i + 1, j);
      CeilDivBounds(period, WindowMs(cfg) + 1, j - i);
    } else {
      CeilDivNonNegative(period, WindowMs(cfg) + 1);
    }
  }

  /** Any closed interval of length `period` sees at most limit * (ceil(period / (window + 1)) + 1)
      calls counted and let through, over all instances together: `limit` in one millisecond. */
  lemma DistributedSlidingBound(cfg: Config, steps: seq<Step>, lo: int, period: nat)
    requires cfg.ttl > 0 && cfg.blockDuration > 0
    ensures WindowMs(cfg) >= cfg.ttl
    ensures |ThroughBetween(Run(cfg, INITIAL, steps), lo, lo + period)|
            <= Max(0, cfg.limit) * (CeilDiv(period, WindowMs(cfg) + 1) + 1)
  {
    RunSound(cfg, INITIAL, steps);
    TimesRun(cfg, INITIAL, steps);
    var s := Run(cfg, INITIAL, steps);
    var t := ThroughBetween(s, lo, lo + period);
    forall w ensures |Slice(t, LifeOf(s), w)| <= Max(0, cfg.limit) {
      if w >= 0 {
        SoundLimits(cfg, s, w);
        Smaller(Slice(t, LifeOf(s), w), Through(s, w));
      } else {
        assert Slice(t, LifeOf(s), w) == {};
      }
    }
    forall c, d | c in t && d in t ensures LifeOf(s)[d] - LifeOf(s)[c] <= CeilDiv(period, WindowMs(cfg) + 1) {
      LivesClose(cfg, s, lo, period, c, d);
    }
    CeilDivNonNegative(period, WindowMs(cfg) + 1);
    SpreadBound(t, LifeOf(s), Max(0, cfg.limit), CeilDiv(period, WindowMs(cfg) + 1));
  }
}
