/**
 The delivery settings row and its two-level cache, `src/repositories/delivery-settings.repository.ts`:
 a local TTL cache in every server process, in front of one Redis key, in front of one database row.
 */
module DeliverySettings {
  import opened Common
  import opened History
  import opened TtlCaching

  // ---------- the row

  datatype Row = Row(charge: real, delivery: bool, pickup: bool, futureConfig: Option<string>, updatedAt: int)

  datatype Settings = Settings(
    charge: real, delivery: bool, pickup: bool, currency: string, futureConfig: string, updatedAt: int)

  /** The fields an admin may send; an absent field is left alone. */
  datatype Patch = Patch(
    charge: Option<real>, delivery: Option<bool>, pickup: Option<bool>, futureConfig: Option<string>)

  function MapRow(row: Row): Settings {
    Settings(row.charge, row.delivery, row.pickup, "INR", Or(row.futureConfig, "{}"), row.updatedAt)
  }

  function DefaultRow(now: int): Row {
    Row(100.0, true, true, None, now)
  }

  function Upserted(db: Option<Row>, p: Patch, now: int): Row {
    match db
    case None =>
      Row(Or(p.charge, 100.0), Or(p.delivery, true), Or(p.pickup, true), Some(Or(p.futureConfig, "{}")), now)
    case Some(row) =>
      Row(Or(p.charge, row.charge), Or(p.delivery, row.delivery), Or(p.pickup, row.pickup),
          if p.futureConfig.Some? then p.futureConfig else row.futureConfig, now)
  }

  /** Creating through `update` or through a first read followed by `update` gives the same settings. */
  lemma UpsertAgreesWithCreateThenUpdate(p: Patch, created: int, now: int)
    ensures MapRow(Upserted(None, p, now)) == MapRow(Upserted(Some(DefaultRow(created)), p, now))
  {
  }

  /** Sending a patch again changes nothing but the time of the last update. */
  lemma UpsertIsIdempotent(db: Option<Row>, p: Patch, t: int, now: int)
    ensures Upserted(Some(Upserted(db, p, t)), p, now) == Upserted(db, p, now)
  {
  }

  /** The settings show the row's own fields. */
  ghost predicate ShowsRow(s: Settings, row: Row) {
    && s.charge == row.charge && s.delivery == row.delivery && s.pickup == row.pickup
    && s.futureConfig == (if row.futureConfig.Some? then row.futureConfig.value else "{}")
    && s.currency == "INR" && s.updatedAt == row.updatedAt
  }

  /** The settings of a shop that has never been configured. */
  ghost predicate ShowsDefaults(s: Settings) {
    s.charge == 100.0 && s.delivery && s.pickup && s.futureConfig == "{}" && s.currency == "INR"
  }

  /** The settings show each field that was sent, and every other field as `kept` has it. */
  ghost predicate ShowsPatch(s: Settings, p: Patch, kept: Settings) {
    && (p.charge.Some? ==> s.charge == p.charge.value)
    && (p.delivery.Some? ==> s.delivery == p.delivery.value)
    && (p.pickup.Some? ==> s.pickup == p.pickup.value)
    && (p.futureConfig.Some? ==> s.futureConfig == p.futureConfig.value)
    && (p.charge.None? ==> s.charge == kept.charge)
    && (p.delivery.None? ==> s.delivery == kept.delivery)
    && (p.pickup.None? ==> s.pickup == kept.pickup)
    && (p.futureConfig.None? ==> s.futureConfig == kept.futureConfig)
    && s.currency == "INR"
  }

  /** The settings are those after an update: what was sent, and for the rest the row before it or the defaults. */
  ghost predicate ShowsUpdate(s: Settings, before: Option<Row>, p: Patch, now: int) {
    && s.updatedAt == now
    && exists kept ::
         && (if before.Some? then ShowsRow(kept, before.value) else ShowsDefaults(kept))
         && ShowsPatch(s, p, kept)
  }

  lemma RowReadsBack(row: Row, now: int)
    ensures ShowsRow(MapRow(row), row)
    ensures ShowsDefaults(MapRow(DefaultRow(now))) && MapRow(DefaultRow(now)).updatedAt == now
  {
  }

  /** Field by field, an update is read back as it was sent, and leaves alone what was not sent. */
  lemma UpdateReadsBack(db: Option<Row>, p: Patch, now: int)
    ensures ShowsUpdate(MapRow(Upserted(db, p, now)), db, p, now)
  {
    var kept := MapRow(if db.Some? then db.value else DefaultRow(now));
    RowReadsBack(if db.Some? then db.value else DefaultRow(now), now);
    assert ShowsPatch(MapRow(Upserted(db, p, now)), p, kept);
  }

  // ---------- the protocol

  /** CacheTtl.DELIVERY_SETTINGS_SEC, in milliseconds. */
  const REDIS_TTL_MS: int := 120_000

  /** `lag` bounds every single delay between reading a copy and storing it. */
  datatype Config = Config(localTtlMs: int, lag: nat)

  /** How far a load has got: each stage ends at an `await`. */
  datatype Stage =
    | AwaitRedis
    | AwaitRow
    | AwaitCreate
    | Loaded(copy: Reading<Settings>, fetchedAt: int)

  datatype Load = Load(node: nat, stage: Stage)

  datatype Answer = Answer(ticket: nat, node: nat, at: int, fromCache: bool, copy: Reading<Settings>)

  /**
   `locals` holds each process's local cache, `redis` the shared key, `sets` the Redis writes that
   are under way and `dels` the number of Redis deletes under way: neither is awaited.
   */
  datatype World = World(
    now: int,
    db: Option<Row>,
    past: seq<Moment<Option<Settings>>>,
    locals: map<nat, Slot<Reading<Settings>>>,
    redis: Slot<Reading<Settings>>,
    loads: map<nat, Load>,
    sets: map<nat, Reading<Settings>>,
    dels: nat,
    asked: nat,
    answers: seq<Answer>)

  datatype Event =
    | Tick(to: int)
    | WriteRow(patch: Patch)
    | Ask(node: nat)
    | RedisReply(ticket: nat, up: bool)
    | RowReply(ticket: nat)
    | CreateReply(ticket: nat)
    | Settle(ticket: nat)
    | Fail(ticket: nat)
    | SetLands(ticket: nat)
    | SetLost(ticket: nat)
    | Invalidate(node: nat)
    | DelLands
    | DelLost

  function Served(db: Option<Row>): Option<Settings> {
    match db
    case None => None
    case Some(row) => Some(MapRow(row))
  }

  function Init(now: int, db: Option<Row>): World {
    World(now, db, [Moment(now, Served(db))], map[], EmptySlot(), map[], map[], 0, 0, [])
  }

  function Local(w: World, node: nat): Slot<Reading<Settings>> {
    if node in w.locals then w.locals[node] else EmptySlot()
  }

  function WithRow(w: World, row: Row): World {
    w.(db := Some(row), past := w.past + [Moment(w.now, Some(MapRow(row)))])
  }

  /** The load has its answer from the database and starts the Redis write without waiting for it. */
  function Resolve(w: World, ticket: nat, row: Row): World
    requires ticket in w.loads
  {
    var copy := Reading(MapRow(row), w.now, Latest(w.past));
    w.(loads := w.loads[ticket := w.loads[ticket].(stage := Loaded(copy, w.now))],
       sets := w.sets[ticket := copy])
  }

  predicate At(w: World, ticket: nat, stage: Stage) {
    ticket in w.loads && w.loads[ticket].stage == stage
  }

  predicate MaySettle(c: Config, w: World, ticket: nat) {
    ticket in w.loads && w.loads[ticket].stage.Loaded? && w.now - w.loads[ticket].stage.fetchedAt <= c.lag
  }

  predicate MayLand(c: Config, w: World, ticket: nat) {
    ticket in w.sets && w.now - w.sets[ticket].at <= c.lag
  }

  /** Up to the first `await`: a local hit answers at once, a miss starts a load. */
  function Asked(w: World, node: nat): World {
    match Local(w, node).Lookup(w.now)
    case Some(hit) => w.(asked := w.asked + 1, answers := w.answers + [Answer(w.asked, node, w.now, true, hit)])
    case None => w.(asked := w.asked + 1, loads := w.loads[w.asked := Load(node, AwaitRedis)])
  }

  function AtStage(w: World, ticket: nat, stage: Stage): World
    requires ticket in w.loads
  {
    w.(loads := w.loads[ticket := w.loads[ticket].(stage := stage)])
  }

  /** A lost connection, a failed read and an absent or expired key all send the load on to the database. */
  function RedisReplied(w: World, ticket: nat, up: bool): World {
    if !At(w, ticket, AwaitRedis) then w
    else if up && w.redis.Lookup(w.now).Some? then AtStage(w, ticket, Loaded(w.redis.value.value, w.now))
    else AtStage(w, ticket, AwaitRow)
  }

  function RowReplied(w: World, ticket: nat): World {
    if !At(w, ticket, AwaitRow) then w
    else if w.db.Some? then Resolve(w, ticket, w.db.value)
    else AtStage(w, ticket, AwaitCreate)
  }

  /** Creating a row that another load has created meanwhile violates its key, and the load is rejected. */
  function CreateReplied(w: World, ticket: nat): World {
    if !At(w, ticket, AwaitCreate) then w
    else if w.db.None? then Resolve(WithRow(w, DefaultRow(w.now)), ticket, DefaultRow(w.now))
    else w.(loads := w.loads - {ticket})
  }

  function Settled(c: Config, w: World, ticket: nat): World {
    if !MaySettle(c, w, ticket) then w
    else
      var load := w.loads[ticket];
      w.(locals := w.locals[load.node := Stored(c.localTtlMs, load.stage.copy, w.now)],
         loads := w.loads - {ticket},
         answers := w.answers + [Answer(ticket, load.node, w.now, false, load.stage.copy)])
  }

  function SetLanded(c: Config, w: World, ticket: nat): World {
    if MayLand(c, w, ticket)
    then w.(redis := Stored(REDIS_TTL_MS, w.sets[ticket], w.now), sets := w.sets - {ticket})
    else w
  }

  function Later(w: World, to: int): World {
    if w.now <= to then w.(now := to) else w
  }

  /** The events that only drop copies: failed loads, lost Redis writes and deletes, invalidations. */
  function Dropped(w: World, e: Event): World {
    match e
    case Fail(ticket) => w.(loads := w.loads - {ticket})
    case SetLost(ticket) => w.(sets := w.sets - {ticket})
    case Invalidate(node) => w.(locals := w.locals[node := EmptySlot()], dels := w.dels + 1)
    case DelLands => if w.dels > 0 then w.(redis := EmptySlot(), dels := w.dels - 1) else w
    case DelLost => if w.dels > 0 then w.(dels := w.dels - 1) else w
    case _ => w
  }

  function Step(c: Config, w: World, e: Event): World {
    match e
    case Tick(to) => Later(w, to)
    case WriteRow(patch) => WithRow(w, Upserted(w.db, patch, w.now))
    case Ask(node) => Asked(w, node)
    case RedisReply(ticket, up) => RedisReplied(w, ticket, up)
    case RowReply(ticket) => RowReplied(w, ticket)
    case CreateReply(ticket) => CreateReplied(w, ticket)
    case Settle(ticket) => Settled(c, w, ticket)
    case SetLands(ticket) => SetLanded(c, w, ticket)
    case _ => Dropped(w, e)
  }

  function Run(c: Config, w: World, events: seq<Event>): World
    decreases events
  {
    if events == [] then w else Run(c, Step(c, w, events[0]), events[1..])
  }

  // ---------- the staleness bound

  /** The copy is what the row stood for at the instant it was read, and that instant has passed. */
  ghost predicate IsCopy(w: World, copy: Reading<Settings>) {
    copy.at <= w.now && Genuine(w.past, Reading(Some(copy.value), copy.at, copy.moment))
  }

  ghost predicate GenuineSlot(w: World, slot: Slot<Reading<Settings>>, ttl: int, age: int) {
    slot.value.Some? ==> IsCopy(w, slot.value.value) && slot.expiresAt - ttl - age < slot.value.value.at
  }

  /** A loaded copy is younger than this when it leaves Redis or the database. */
  function LoadAge(c: Config): int {
    REDIS_TTL_MS + c.lag
  }

  ghost predicate Recent(c: Config, w: World, a: Answer) {
    && IsCopy(w, a.copy)
    && a.copy.at <= a.at <= w.now
    && a.at - LoadAge(c) - c.lag - (if a.fromCache then c.localTtlMs - 1 else 0) < a.copy.at
  }

  ghost predicate Inv(c: Config, w: World) {
    && UpTo(w.past, Served(w.db), w.now)
    && (forall n :: n in w.locals ==> GenuineSlot(w, w.locals[n], c.localTtlMs, LoadAge(c) + c.lag))
    && GenuineSlot(w, w.redis, REDIS_TTL_MS, c.lag + 1)
    && (forall t :: t in w.sets ==> IsCopy(w, w.sets[t]))
    && (forall t :: t in w.loads ==> t < w.asked && GenuineLoad(c, w, w.loads[t].stage))
    && (forall i :: 0 <= i < |w.answers| ==> w.answers[i].ticket < w.asked && Recent(c, w, w.answers[i]))
  }

  ghost predicate GenuineLoad(c: Config, w: World, stage: Stage) {
    stage.Loaded? ==>
      IsCopy(w, stage.copy) && stage.fetchedAt <= w.now && stage.fetchedAt - LoadAge(c) < stage.copy.at
  }

  /** A change of the row leaves every copy genuine. */
  lemma WithRowKeepsInv(c: Config, w: World, row: Row)
    requires Inv(c, w)
    ensures Inv(c, WithRow(w, row))
  {
  }

  lemma ResolveKeepsInv(c: Config, w: World, ticket: nat)
    requires Inv(c, w) && w.db.Some? && ticket in w.loads
    ensures Inv(c, Resolve(w, ticket, w.db.value))
  {
  }

  lemma SettledKeepsInv(c: Config, w: World, ticket: nat)
    requires Inv(c, w)
    ensures Inv(c, Settled(c, w, ticket))
  {
  }

  lemma AskedKeepsInv(c: Config, w: World, node: nat)
    requires Inv(c, w)
    ensures Inv(c, Asked(w, node))
  {
  }

  lemma RedisRepliedKeepsInv(c: Config, w: World, ticket: nat, up: bool)
    requires Inv(c, w)
    ensures Inv(c, RedisReplied(w, ticket, up))
  {
  }

  lemma RowRepliedKeepsInv(c: Config, w: World, ticket: nat)
    requires Inv(c, w)
    ensures Inv(c, RowReplied(w, ticket))
  {
    if At(w, ticket, AwaitRow) && w.db.Some? {
      ResolveKeepsInv(c, w, ticket);
    }
  }

  lemma CreateRepliedKeepsInv(c: Config, w: World, ticket: nat)
    requires Inv(c, w)
    ensures Inv(c, CreateReplied(w, ticket))
  {
    if At(w, ticket, AwaitCreate) && w.db.None? {
      WithRowKeepsInv(c, w, DefaultRow(w.now));
      ResolveKeepsInv(c, WithRow(w, DefaultRow(w.now)), ticket);
    }
  }

  lemma SetLandedKeepsInv(c: Config, w: World, ticket: nat)
    requires Inv(c, w)
    ensures Inv(c, SetLanded(c, w, ticket))
  {
  }

  lemma LaterKeepsInv(c: Config, w: World, to: int)
    requires Inv(c, w)
    ensures Inv(c, Later(w, to))
  {
  }

  /** `w'` holds no copy that `w` does not hold, and is otherwise the same. */
  ghost predicate OnlyDrops(w': World, w: World) {
    && w' == w.(locals := w'.locals, redis := w'.redis, loads := w'.loads, sets := w'.sets, dels := w'.dels)
    && (forall n :: n in w'.locals ==> w'.locals[n] == Local(w, n) || w'.locals[n] == EmptySlot())
    && (w'.redis == w.redis || w'.redis == EmptySlot())
    && (forall t :: t in w'.loads ==> t in w.loads && w'.loads[t] == w.loads[t])
    && (forall t :: t in w'.sets ==> t in w.sets && w'.sets[t] == w.sets[t])
  }

  lemma DroppedOnlyDrops(w: World, e: Event)
    ensures OnlyDrops(Dropped(w, e), w)
  {
  }

  lemma OnlyDropsKeepsInv(c: Config, w': World, w: World)
    requires Inv(c, w) && OnlyDrops(w', w)
    ensures Inv(c, w')
  {
  }

  lemma StepKeepsInv(c: Config, w: World, e: Event)
    requires Inv(c, w)
    ensures Inv(c, Step(c, w, e))
  {
    match e
    case Tick(to) => LaterKeepsInv(c, w, to);
    case WriteRow(patch) => WithRowKeepsInv(c, w, Upserted(w.db, patch, w.now));
    case Ask(node) => AskedKeepsInv(c, w, node);
    case RedisReply(ticket, up) => RedisRepliedKeepsInv(c, w, ticket, up);
    case RowReply(ticket) => RowRepliedKeepsInv(c, w, ticket);
    case CreateReply(ticket) => CreateRepliedKeepsInv(c, w, ticket);
    case Settle(ticket) => SettledKeepsInv(c, w, ticket);
    case SetLands(ticket) => SetLandedKeepsInv(c, w, ticket);
    case _ =>
      DroppedOnlyDrops(w, e);
      OnlyDropsKeepsInv(c, Dropped(w, e), w);
  }

  lemma {:induction false} RunKeepsInv(c: Config, w: World, events: seq<Event>)
    requires Inv(c, w)
    ensures Inv(c, Run(c, w, events))
    decreases events
  {
    if events != [] {
      StepKeepsInv(c, w, events[0]);
      RunKeepsInv(c, Step(c, w, events[0]), events[1..]);
    }
  }

  /**
   In every interleaving, whatever `getOrCreate`'s cached loader answers was the database row less
   than local TTL + Redis TTL + twice the lag before.
   */
  lemma AnswersAreBoundedlyStale(c: Config, start: int, db: Option<Row>, events: seq<Event>)
    requires 0 <= c.localTtlMs
    ensures var w := Run(c, Init(start, db), events);
            forall i :: 0 <= i < |w.answers| ==>
              && IsCopy(w, w.answers[i].copy)
              && w.answers[i].at - (c.localTtlMs + 120_000 + 2 * c.lag) < w.answers[i].copy.at <= w.answers[i].at
              && (w.answers[i].fromCache ==>
                    w.answers[i].at - (c.localTtlMs + 120_000 + 2 * c.lag - 1) < w.answers[i].copy.at)
              && (!w.answers[i].fromCache ==>
                    w.answers[i].at - (120_000 + 2 * c.lag) < w.answers[i].copy.at)
  {
    RunKeepsInv(c, Init(start, db), events);
    var w := Run(c, Init(start, db), events);
    assert forall i :: 0 <= i < |w.answers| ==> Recent(c, w, w.answers[i]);
  }

  // ---------- what the answers show

  ghost predicate NoWrite(events: seq<Event>) {
    forall i :: 0 <= i < |events| ==> !events[i].WriteRow?
  }

  /** The history has only the given row in it or, where there was none, at most a row created with the defaults. */
  ghost predicate HasOnly(w: World, db: Option<Row>) {
    && (db.Some? ==> w.db == db)
    && (forall i :: 0 <= i < |w.past| && w.past[i].value.Some? ==>
          if db.Some? then ShowsRow(w.past[i].value.value, db.value) else ShowsDefaults(w.past[i].value.value))
  }

  lemma StepKeepsHasOnly(c: Config, w: World, e: Event, db: Option<Row>)
    requires HasOnly(w, db) && !e.WriteRow?
    ensures HasOnly(Step(c, w, e), db)
  {
    RowReadsBack(DefaultRow(w.now), w.now);
    if !e.CreateReply? {
      assert Step(c, w, e).past == w.past && Step(c, w, e).db == w.db;
    }
  }

  lemma {:induction false} RunKeepsHasOnly(c: Config, w: World, events: seq<Event>, db: Option<Row>)
    requires HasOnly(w, db) && NoWrite(events)
    ensures HasOnly(Run(c, w, events), db)
    decreases events
  {
    if events != [] {
      StepKeepsHasOnly(c, w, events[0], db);
      RunKeepsHasOnly(c, Step(c, w, events[0]), events[1..], db);
    }
  }

  /**
   Until somebody updates them, the settings answered are, field by field, those of the stored row, or
   the defaults when there was no row: in every interleaving, through both caches.
   */
  lemma AnswersShowStoredRow(c: Config, start: int, db: Option<Row>, events: seq<Event>)
    requires NoWrite(events)
    ensures var w := Run(c, Init(start, db), events);
            forall i :: 0 <= i < |w.answers| ==>
              if db.Some? then ShowsRow(w.answers[i].copy.value, db.value) else ShowsDefaults(w.answers[i].copy.value)
  {
    var w := Run(c, Init(start, db), events);
    RunKeepsInv(c, Init(start, db), events);
    if db.Some? {
      RowReadsBack(db.value, start);
    }
    RunKeepsHasOnly(c, Init(start, db), events, db);
    forall i | 0 <= i < |w.answers| ensures w.past[w.answers[i].copy.moment].value == Some(w.answers[i].copy.value) {
      assert Recent(c, w, w.answers[i]);
    }
  }

  /** Two first calls that both find no row: the one that creates it is answered the defaults, the other is rejected. */
  lemma RacingCreatesRejectOne(c: Config, start: int, a: nat, b: nat) returns (events: seq<Event>)
    requires a != b
    ensures var w := Run(c, Init(start, None), events);
            && |w.answers| == 1 && w.asked == 2 && w.loads == map[]
            && w.answers[0].node == a && !w.answers[0].fromCache && ShowsDefaults(w.answers[0].copy.value)
            && w.db.Some? && ShowsRow(w.answers[0].copy.value, w.db.value) && |w.past| == 2
            && Local(w, b) == EmptySlot() && Local(w, a).value == Some(w.answers[0].copy)
  {
    var w0 := Init(start, None);
    var w1 := w0.(asked := 2, loads := map[0 := Load(a, AwaitRedis), 1 := Load(b, AwaitRedis)]);
    var w2 := w0.(asked := 2, loads := map[0 := Load(a, AwaitCreate), 1 := Load(b, AwaitCreate)]);
    RunCons(c, w0, Ask(a), [Ask(b)] + []);
    RunCons(c, Step(c, w0, Ask(a)), Ask(b), []);
    assert Run(c, w0, [Ask(a)] + ([Ask(b)] + [])) == w1;
    var first := FindNoRow(c, w1, 0);
    var second := FindNoRow(c, AtStage(w1, 0, AwaitCreate), 1);
    assert AtStage(AtStage(w1, 0, AwaitCreate), 1, AwaitCreate) == w2;
    var create := OneCreates(c, w2, a, b);
    hide Step, AtStage;
    RunConcat(c, AtStage(w1, 0, AwaitCreate), second, create);
    RunConcat(c, w1, first, second + create);
    RunConcat(c, w0, [Ask(a)] + ([Ask(b)] + []), first + (second + create));
    events := [Ask(a)] + ([Ask(b)] + []) + (first + (second + create));
  }

  /** A load on its way that finds no row. */
  lemma FindNoRow(c: Config, w: World, ticket: nat) returns (events: seq<Event>)
    requires w.db.None? && At(w, ticket, AwaitRedis)
    ensures Run(c, w, events) == AtStage(w, ticket, AwaitCreate)
  {
    var w1 := AtStage(w, ticket, AwaitRow);
    assert Step(c, w, RedisReply(ticket, false)) == w1;
    assert Step(c, w1, RowReply(ticket)) == AtStage(w, ticket, AwaitCreate);
    hide Step;
    events := [RedisReply(ticket, false)] + ([RowReply(ticket)] + []);
    RunCons(c, w, RedisReply(ticket, false), [RowReply(ticket)] + []);
    RunCons(c, w1, RowReply(ticket), []);
  }

  lemma OneCreates(c: Config, w: World, a: nat, b: nat) returns (events: seq<Event>)
    requires w.db.None? && w.loads == map[0 := Load(a, AwaitCreate), 1 := Load(b, AwaitCreate)]
    requires w.answers == [] && w.locals == map[] && a != b && w.past == [Moment(w.now, None)]
    ensures var w' := Run(c, w, events);
            && |w'.answers| == 1 && w'.asked == w.asked && w'.loads == map[]
            && w'.answers[0].node == a && !w'.answers[0].fromCache && ShowsDefaults(w'.answers[0].copy.value)
            && w'.db.Some? && ShowsRow(w'.answers[0].copy.value, w'.db.value) && |w'.past| == 2
            && Local(w', b) == EmptySlot() && Local(w', a).value == Some(w'.answers[0].copy)
  {
    var row := DefaultRow(w.now);
    var copy := Reading(MapRow(row), w.now, 1);
    var w1 := WithRow(w, row).(
      loads := map[0 := Load(a, Loaded(copy, w.now)), 1 := Load(b, AwaitCreate)], sets := w.sets[0 := copy]);
    var w2 := w1.(loads := map[0 := Load(a, Loaded(copy, w.now))]);
    assert Step(c, w, CreateReply(0)) == w1 && Step(c, w1, CreateReply(1)) == w2;
    var w3 := w2.(loads := map[], locals := map[a := Stored(c.localTtlMs, copy, w.now)],
                  answers := [Answer(0, a, w.now, false, copy)]);
    assert Step(c, w2, Settle(0)) == w3;
    hide Step;
    events := [CreateReply(0)] + ([CreateReply(1)] + ([Settle(0)] + []));
    RunCons(c, w, CreateReply(0), [CreateReply(1)] + ([Settle(0)] + []));
    RunCons(c, w1, CreateReply(1), [Settle(0)] + []);
    RunCons(c, w2, Settle(0), []);
    RowReadsBack(row, w.now);
  }

  ghost predicate NotAnsweredSince(before: World, w: World, ticket: nat) {
    && ticket < w.asked && ticket !in w.loads && |before.answers| <= |w.answers|
    && forall i :: |before.answers| <= i < |w.answers| ==> w.answers[i].ticket != ticket
  }

  lemma {:induction false} NeverAnswered(c: Config, before: World, w: World, ticket: nat, events: seq<Event>)
    requires NotAnsweredSince(before, w, ticket)
    ensures NotAnsweredSince(before, Run(c, w, events), ticket)
    decreases events
  {
    if events != [] {
      NeverAnswered(c, before, Step(c, w, events[0]), ticket, events[1..]);
    }
  }

  /** A call whose load fails is rejected: it gets no answer in any continuation. */
  lemma FailedLoadIsNotAnswered(c: Config, w: World, ticket: nat, events: seq<Event>)
    requires ticket < w.asked
    ensures NotAnsweredSince(w, Run(c, Step(c, w, Fail(ticket)), events), ticket)
  {
    NeverAnswered(c, w, Step(c, w, Fail(ticket)), ticket, events);
  }

  lemma StepKeepsPast(c: Config, w: World, e: Event)
    ensures w.past <= Step(c, w, e).past
  {
  }

  lemma {:induction false} RunKeepsPast(c: Config, w: World, events: seq<Event>)
    ensures w.past <= Run(c, w, events).past
    decreases events
  {
    hide Step;
    if events != [] {
      StepKeepsPast(c, w, events[0]);
      RunKeepsPast(c, Step(c, w, events[0]), events[1..]);
    }
  }

  /** However the run goes on after an update, an answer from the row as it was written shows what was sent. */
  lemma AnswersShowUpdate(c: Config, w: World, patch: Patch, events: seq<Event>)
    requires Inv(c, w)
    ensures var written := Step(c, w, WriteRow(patch));
            var w' := Run(c, written, events);
            forall i :: 0 <= i < |w'.answers| && w'.answers[i].copy.moment == Latest(written.past) ==>
              ShowsUpdate(w'.answers[i].copy.value, w.db, patch, w.now)
  {
    var written := Step(c, w, WriteRow(patch));
    var w' := Run(c, written, events);
    StepKeepsInv(c, w, WriteRow(patch));
    RunKeepsInv(c, written, events);
    RunKeepsPast(c, written, events);
    UpdateReadsBack(w.db, patch, w.now);
    assert written.past[Latest(written.past)].value == Some(MapRow(Upserted(w.db, patch, w.now)));
    hide ShowsUpdate, Step, Run, Upserted, MapRow;
    forall i | 0 <= i < |w'.answers|
      ensures w'.past[w'.answers[i].copy.moment].value == Some(w'.answers[i].copy.value)
    {
      assert Recent(c, w', w'.answers[i]);
    }
  }

  lemma RunCons(c: Config, w: World, e: Event, events: seq<Event>)
    ensures Run(c, w, [e] + events) == Run(c, Step(c, w, e), events)
  {
    assert ([e] + events)[1..] == events;
  }

  lemma {:induction false} RunConcat(c: Config, w: World, a: seq<Event>, b: seq<Event>)
    ensures Run(c, w, a + b) == Run(c, Run(c, w, a), b)
    decreases a
  {
    if a == [] {
      assert a + b == b;
    } else {
      assert (a + b)[1..] == a[1..] + b;
      RunConcat(c, Step(c, w, a[0]), a[1..], b);
    }
  }

  /** The row was read at the start, changed at once, and written to Redis as late as possible. */
  function Filled(c: Config, start: int, row: Row, patch: Patch): World {
    WithRow(Init(start, Some(row)), Upserted(Some(row), patch, start)).(
      now := start + c.lag, asked := 1,
      redis := Stored(REDIS_TTL_MS, Reading(MapRow(row), start, 0), start + c.lag))
  }

  /** A load that has just read the row, with its write to Redis under way. */
  function RowRead(start: int, row: Row): World {
    var copy := Reading(MapRow(row), start, 0);
    Init(start, Some(row)).(asked := 1, loads := map[0 := Load(0, Loaded(copy, start))], sets := map[0 := copy])
  }

  lemma ReadRow(c: Config, start: int, row: Row) returns (events: seq<Event>)
    ensures Run(c, Init(start, Some(row)), events) == RowRead(start, row)
  {
    var w0 := Init(start, Some(row));
    var w1 := w0.(asked := 1, loads := map[0 := Load(0, AwaitRedis)]);
    var w2 := w1.(loads := map[0 := Load(0, AwaitRow)]);
    assert w1 == Step(c, w0, Ask(0)) && w2 == Step(c, w1, RedisReply(0, true));
    assert RowRead(start, row) == Step(c, w2, RowReply(0));
    hide Step;
    RunCons(c, w2, RowReply(0), []);
    RunCons(c, w1, RedisReply(0, true), [RowReply(0)] + []);
    events := [Ask(0)] + ([RedisReply(0, true)] + ([RowReply(0)] + []));
    RunCons(c, w0, Ask(0), [RedisReply(0, true)] + ([RowReply(0)] + []));
  }

  lemma FillRedis(c: Config, start: int, row: Row, patch: Patch) returns (events: seq<Event>)
    ensures Run(c, Init(start, Some(row)), events) == Filled(c, start, row, patch)
  {
    var read := ReadRow(c, start, row);
    var w3 := RowRead(start, row);
    var w4 := w3.(loads := map[]);
    var w5 := WithRow(w4, Upserted(Some(row), patch, start));
    var w6 := w5.(now := start + c.lag);
    assert w4 == Step(c, w3, Fail(0)) && w5 == Step(c, w4, WriteRow(patch)) && w6 == Step(c, w5, Tick(w6.now));
    assert Step(c, w6, SetLands(0)) == Filled(c, start, row, patch);
    hide Step, WithRow, Upserted, Filled;
    RunCons(c, w6, SetLands(0), []);
    RunCons(c, w5, Tick(w6.now), [SetLands(0)] + []);
    RunCons(c, w4, WriteRow(patch), [Tick(w6.now)] + ([SetLands(0)] + []));
    var late := [Fail(0)] + ([WriteRow(patch)] + ([Tick(w6.now)] + ([SetLands(0)] + [])));
    RunCons(c, w3, Fail(0), [WriteRow(patch)] + ([Tick(w6.now)] + ([SetLands(0)] + [])));
    events := read + late;
    RunConcat(c, Init(start, Some(row)), read, late);
  }

  /** A call of a process that just finds the entry and settles as late as possible. */
  lemma ServeFromRedis(c: Config, w: World) returns (events: seq<Event>)
    requires w.loads == map[] && w.locals == map[] && w.asked == 1 && w.answers == []
    requires w.redis.value.Some? && w.now < w.redis.expiresAt
    ensures var found := w.redis.expiresAt - 1;
            Run(c, w, events) == w.(
              now := found + c.lag, asked := 2,
              locals := map[1 := Stored(c.localTtlMs, w.redis.value.value, found + c.lag)],
              answers := [Answer(1, 1, found + c.lag, false, w.redis.value.value)])
  {
    var found, copy := w.redis.expiresAt - 1, w.redis.value.value;
    var w1 := w.(now := found);
    var w2 := w1.(asked := 2, loads := map[1 := Load(1, AwaitRedis)]);
    var w3 := w2.(loads := map[1 := Load(1, Loaded(copy, found))]);
    var w4 := w3.(now := found + c.lag);
    assert w1 == Step(c, w, Tick(found)) && w2 == Step(c, w1, Ask(1)) && w3 == Step(c, w2, RedisReply(1, true));
    assert w4 == Step(c, w3, Tick(w4.now));
    assert Step(c, w4, Settle(1)) == w4.(
      loads := map[], locals := map[1 := Stored(c.localTtlMs, copy, w4.now)],
      answers := [Answer(1, 1, w4.now, false, copy)]);
    hide Step;
    RunCons(c, w4, Settle(1), []);
    RunCons(c, w3, Tick(w4.now), [Settle(1)] + []);
    RunCons(c, w2, RedisReply(1, true), [Tick(w4.now)] + ([Settle(1)] + []));
    RunCons(c, w1, Ask(1), [RedisReply(1, true)] + ([Tick(w4.now)] + ([Settle(1)] + [])));
    events := [Tick(found)] + ([Ask(1)] + ([RedisReply(1, true)] + ([Tick(w4.now)] + ([Settle(1)] + []))));
    RunCons(c, w, Tick(found), [Ask(1)] + ([RedisReply(1, true)] + ([Tick(w4.now)] + ([Settle(1)] + []))));
  }

  /** A call in the last instant in which the local copy counts. */
  lemma ServeFromLocal(c: Config, w: World, node: nat) returns (events: seq<Event>)
    requires Local(w, node).value.Some? && w.now < Local(w, node).expiresAt
    ensures var last := Local(w, node).expiresAt - 1;
            Run(c, w, events) == w.(
              now := last, asked := w.asked + 1,
              answers := w.answers + [Answer(w.asked, node, last, true, Local(w, node).value.value)])
  {
    var last := Local(w, node).expiresAt - 1;
    var w1 := w.(now := last);
    assert w1 == Step(c, w, Tick(last)) && Local(w1, node) == Local(w, node);
    RunCons(c, w1, Ask(node), []);
    events := [Tick(last)] + ([Ask(node)] + []);
    RunCons(c, w, Tick(last), [Ask(node)] + []);
  }

  /**
   Both bounds are attained: a load through Redis and a later local hit can be answered as late as they
   allow, with a row that was changed right after it was read.
   */
  lemma StalenessBoundsAreSharp(c: Config, start: int, row: Row, patch: Patch) returns (events: seq<Event>)
    requires c.localTtlMs > 0
    ensures var w := Run(c, Init(start, Some(row)), events);
            && |w.answers| == 2
            && w.db == Some(Upserted(Some(row), patch, start))
            && w.answers[0].copy == w.answers[1].copy == Reading(MapRow(row), start, 0)
            && !w.answers[0].fromCache && w.answers[0].at == start + 120_000 + 2 * c.lag - 1
            && w.answers[1].fromCache && w.answers[1].at == start + c.localTtlMs + 120_000 + 2 * c.lag - 2
  {
    var fill := FillRedis(c, start, row, patch);
    var w1 := Filled(c, start, row, patch);
    var serve := ServeFromRedis(c, w1);
    var w2 := Run(c, w1, serve);
    var local := ServeFromLocal(c, w2, 1);
    events := fill + (serve + local);
    RunConcat(c, Init(start, Some(row)), fill, serve + local);
    RunConcat(c, w1, serve, local);
  }

  // ---------- what an update guarantees to later reads

  /** An older copy that is not in Redis but may still get there, or into the local cache. */
  ghost predicate StaleCopyAhead(c: Config, w: World, node: nat, since: nat) {
    || (exists t :: MayLand(c, w, t) && w.sets[t].moment < since)
    || (c.localTtlMs > 0 && exists t ::
          MaySettle(c, w, t) && w.loads[t].node == node && w.loads[t].stage.copy.moment < since)
  }

  /**
   A copy older than a moment that a process can still serve after `invalidateCache` has run in it: the
   Redis entry whose deletion is not awaited, a Redis write under way, or a load of its own about to
   fill its local cache.
   */
  ghost predicate StaleCopyAtLarge(c: Config, w: World, node: nat, since: nat) {
    (w.redis.Lookup(w.now).Some? && w.redis.value.value.moment < since) || StaleCopyAhead(c, w, node, since)
  }

  /** The calls made in the process from ticket `asked` on were answered from the row of that moment or a later one. */
  ghost predicate LaterAnswersFresh(since: nat, asked: nat, node: nat, w: World) {
    forall i :: 0 <= i < |w.answers| && asked <= w.answers[i].ticket && w.answers[i].node == node ==>
      since <= w.answers[i].copy.moment
  }

  /** However the run continues after an invalidation now, no later call in the process sees a row older than that. */
  ghost predicate InvalidationShows(c: Config, w: World, node: nat, since: nat) {
    forall events :: LaterAnswersFresh(since, w.asked, node, Run(c, Step(c, w, Invalidate(node)), events))
  }

  /** No later call in the process sees a row older than the one current now. */
  ghost predicate InvalidationIsEffective(c: Config, w: World, node: nat) {
    InvalidationShows(c, w, node, Latest(w.past))
  }

  ghost predicate FreshOrExpired(since: nat, slot: Slot<Reading<Settings>>, now: int) {
    slot.value.Some? ==> since <= slot.value.value.moment || slot.expiresAt <= now
  }

  ghost predicate NoLiveStaleCopy(c: Config, since: nat, asked: nat, node: nat, w: World) {
    && since <= Latest(w.past) && asked <= w.asked
    && FreshOrExpired(since, Local(w, node), w.now)
    && FreshOrExpired(since, w.redis, w.now)
    && (forall t :: MayLand(c, w, t) ==> since <= w.sets[t].moment)
    && (forall t: nat :: MaySettle(c, w, t) && w.loads[t].node == node ==>
          since <= w.loads[t].stage.copy.moment || (c.localTtlMs <= 0 && t < asked))
    && LaterAnswersFresh(since, asked, node, w)
  }

  lemma OnlyDropsKeepsNoLiveStaleCopy(c: Config, since: nat, asked: nat, node: nat, w': World, w: World)
    requires NoLiveStaleCopy(c, since, asked, node, w) && OnlyDrops(w', w)
    ensures NoLiveStaleCopy(c, since, asked, node, w')
  {
  }

  lemma AskedKeepsNoLiveStaleCopy(c: Config, since: nat, asked: nat, node: nat, w: World, asker: nat)
    requires NoLiveStaleCopy(c, since, asked, node, w)
    ensures NoLiveStaleCopy(c, since, asked, node, Asked(w, asker))
  {
  }

  lemma RedisRepliedKeepsNoLiveStaleCopy(c: Config, since: nat, asked: nat, node: nat, w: World, ticket: nat, up: bool)
    requires NoLiveStaleCopy(c, since, asked, node, w)
    ensures NoLiveStaleCopy(c, since, asked, node, RedisReplied(w, ticket, up))
  {
  }

  lemma WithRowKeepsNoLiveStaleCopy(c: Config, since: nat, asked: nat, node: nat, w: World, row: Row)
    requires NoLiveStaleCopy(c, since, asked, node, w)
    ensures NoLiveStaleCopy(c, since, asked, node, WithRow(w, row))
  {
  }

  lemma ResolveKeepsNoLiveStaleCopy(c: Config, since: nat, asked: nat, node: nat, w: World, ticket: nat, row: Row)
    requires NoLiveStaleCopy(c, since, asked, node, w) && ticket in w.loads
    ensures NoLiveStaleCopy(c, since, asked, node, Resolve(w, ticket, row))
  {
  }

  lemma UnloadedKeepsNoLiveStaleCopy(c: Config, since: nat, asked: nat, node: nat, w: World, ticket: nat)
    requires NoLiveStaleCopy(c, since, asked, node, w) && ticket in w.loads
    ensures NoLiveStaleCopy(c, since, asked, node, AtStage(w, ticket, AwaitCreate))
    ensures NoLiveStaleCopy(c, since, asked, node, w.(loads := w.loads - {ticket}))
  {
  }

  lemma DatabaseStepKeepsNoLiveStaleCopy(c: Config, since: nat, asked: nat, node: nat, w: World, e: Event)
    requires NoLiveStaleCopy(c, since, asked, node, w) && (e.RowReply? || e.CreateReply?)
    ensures NoLiveStaleCopy(c, since, asked, node, Step(c, w, e))
  {
    hide NoLiveStaleCopy, WithRow, Resolve, AtStage;
    if e.ticket in w.loads {
      UnloadedKeepsNoLiveStaleCopy(c, since, asked, node, w, e.ticket);
      if w.db.Some? {
        ResolveKeepsNoLiveStaleCopy(c, since, asked, node, w, e.ticket, w.db.value);
      } else {
        var row := DefaultRow(w.now);
        WithRowKeepsNoLiveStaleCopy(c, since, asked, node, w, row);
        assert e.ticket in WithRow(w, row).loads by { WithRowKeepsLoads(w, row); }
        ResolveKeepsNoLiveStaleCopy(c, since, asked, node, WithRow(w, row), e.ticket, row);
      }
    }
  }

  lemma WithRowKeepsLoads(w: World, row: Row)
    ensures WithRow(w, row).loads == w.loads
  {
  }

  lemma StepKeepsNoLiveStaleCopy(c: Config, since: nat, asked: nat, node: nat, w: World, e: Event)
    requires NoLiveStaleCopy(c, since, asked, node, w)
    ensures NoLiveStaleCopy(c, since, asked, node, Step(c, w, e))
  {
    if e.Fail? || e.SetLost? || e.Invalidate? || e.DelLands? || e.DelLost? {
      DroppedOnlyDrops(w, e);
      OnlyDropsKeepsNoLiveStaleCopy(c, since, asked, node, Dropped(w, e), w);
    } else if e.Ask? {
      AskedKeepsNoLiveStaleCopy(c, since, asked, node, w, e.node);
    } else if e.RedisReply? {
      RedisRepliedKeepsNoLiveStaleCopy(c, since, asked, node, w, e.ticket, e.up);
    } else if e.RowReply? || e.CreateReply? {
      DatabaseStepKeepsNoLiveStaleCopy(c, since, asked, node, w, e);
    }
  }

  lemma {:induction false} RunKeepsNoLiveStaleCopy(
    c: Config, since: nat, asked: nat, node: nat, w: World, events: seq<Event>)
    requires NoLiveStaleCopy(c, since, asked, node, w)
    ensures NoLiveStaleCopy(c, since, asked, node, Run(c, w, events))
    decreases events
  {
    if events != [] {
      StepKeepsNoLiveStaleCopy(c, since, asked, node, w, events[0]);
      RunKeepsNoLiveStaleCopy(c, since, asked, node, Step(c, w, events[0]), events[1..]);
    }
  }

  /** A stale entry in Redis is loaded and served by the next call of a process without a local copy. */
  lemma StaleEntryIsServed(c: Config, since: nat, asked: nat, node: nat, w: World) returns (events: seq<Event>)
    requires Local(w, node) == EmptySlot() && w.asked == asked
    requires w.redis.Lookup(w.now).Some? && w.redis.value.value.moment < since
    ensures !LaterAnswersFresh(since, asked, node, Run(c, w, events))
  {
    var t := w.asked;
    var w1 := Step(c, w, Ask(node));
    var w2 := Step(c, w1, RedisReply(t, true));
    var w3 := Step(c, w2, Settle(t));
    events := [Ask(node)] + ([RedisReply(t, true)] + ([Settle(t)] + []));
    RunCons(c, w, Ask(node), [RedisReply(t, true)] + ([Settle(t)] + []));
    RunCons(c, w1, RedisReply(t, true), [Settle(t)] + []);
    RunCons(c, w2, Settle(t), []);
    assert w3.answers[|w.answers|] == Answer(t, node, w.now, false, w.redis.value.value);
  }

  /**
   A process sends its commands to Redis in order, so its reads cannot overtake its delete: a stale entry
   is served after the invalidation only when the delete has failed, which the program tolerates.
   */
  lemma StaleRedisEntryIsServed(c: Config, since: nat, asked: nat, node: nat, w: World) returns (events: seq<Event>)
    requires Local(w, node) == EmptySlot() && w.asked == asked && w.dels > 0
    requires w.redis.Lookup(w.now).Some? && w.redis.value.value.moment < since
    ensures !LaterAnswersFresh(since, asked, node, Run(c, w, events))
  {
    var rest := StaleEntryIsServed(c, since, asked, node, Step(c, w, DelLost));
    RunCons(c, w, DelLost, rest);
    events := [DelLost] + rest;
  }

  lemma StaleCopyIsServed(c: Config, w: World, node: nat, since: nat) returns (events: seq<Event>)
    requires StaleCopyAtLarge(c, w, node, since)
    ensures !LaterAnswersFresh(since, w.asked, node, Run(c, Step(c, w, Invalidate(node)), events))
  {
    var w1 := Step(c, w, Invalidate(node));
    if w.redis.Lookup(w.now).Some? && w.redis.value.value.moment < since {
      events := StaleRedisEntryIsServed(c, since, w.asked, node, w1);
    } else if exists t :: MayLand(c, w, t) && w.sets[t].moment < since {
      var t :| MayLand(c, w, t) && w.sets[t].moment < since;
      var rest := StaleRedisEntryIsServed(c, since, w.asked, node, Step(c, w1, SetLands(t)));
      events := [SetLands(t)] + rest;
      RunCons(c, w1, SetLands(t), rest);
    } else {
      var t :| MaySettle(c, w, t) && w.loads[t].node == node && w.loads[t].stage.copy.moment < since;
      events := StaleLoadIsServed(c, since, node, w1, t);
    }
  }

  /**
   The invalidation does not wait for Redis, so it does not by itself protect later reads from copies
   older than a moment. It does exactly when no such copy is at large at that instant.
   */
  lemma InvalidationShowsIff(c: Config, w: World, node: nat, since: nat)
    requires Inv(c, w) && since <= Latest(w.past)
    ensures InvalidationShows(c, w, node, since) <==> !StaleCopyAtLarge(c, w, node, since)
  {
    if StaleCopyAtLarge(c, w, node, since) {
      var events := StaleCopyIsServed(c, w, node, since);
    } else {
      forall events ensures LaterAnswersFresh(since, w.asked, node, Run(c, Step(c, w, Invalidate(node)), events)) {
        RunKeepsNoLiveStaleCopy(c, since, w.asked, node, Step(c, w, Invalidate(node)), events);
      }
    }
  }

  lemma InvalidationIsEffectiveIff(c: Config, w: World, node: nat)
    requires Inv(c, w)
    ensures InvalidationIsEffective(c, w, node) <==> !StaleCopyAtLarge(c, w, node, Latest(w.past))
  {
    InvalidationShowsIff(c, w, node, Latest(w.past));
  }

  /** However the run goes on once the delete has arrived, no later call in the process sees an older row. */
  ghost predicate LandedDeleteShows(c: Config, w: World, node: nat, since: nat) {
    var deleted := Step(c, Step(c, w, Invalidate(node)), DelLands);
    forall events :: LaterAnswersFresh(since, w.asked, node, Run(c, deleted, events))
  }

  /**
   When the delete does arrive, whatever Redis held is gone: later reads are then protected exactly when
   no older copy is still to be written to Redis or to the process's local cache.
   */
  lemma LandedDeleteShowsIff(c: Config, w: World, node: nat, since: nat)
    requires Inv(c, w) && since <= Latest(w.past)
    ensures LandedDeleteShows(c, w, node, since) <==> !StaleCopyAhead(c, w, node, since)
  {
    var invalidated := Step(c, w, Invalidate(node));
    var deleted := Step(c, invalidated, DelLands);
    if StaleCopyAhead(c, w, node, since) {
      var events := StaleCopyArrives(c, w, node, since, deleted);
    } else {
      assert NoLiveStaleCopy(c, since, w.asked, node, deleted);
      forall events ensures LaterAnswersFresh(since, w.asked, node, Run(c, deleted, events)) {
        RunKeepsNoLiveStaleCopy(c, since, w.asked, node, deleted, events);
      }
    }
  }

  lemma StaleCopyArrives(c: Config, w: World, node: nat, since: nat, deleted: World) returns (events: seq<Event>)
    requires StaleCopyAhead(c, w, node, since)
    requires deleted == w.(locals := deleted.locals, redis := deleted.redis, dels := deleted.dels)
    requires Local(deleted, node) == EmptySlot()
    ensures !LaterAnswersFresh(since, w.asked, node, Run(c, deleted, events))
  {
    if exists t :: MayLand(c, w, t) && w.sets[t].moment < since {
      var t :| MayLand(c, w, t) && w.sets[t].moment < since;
      var rest := StaleEntryIsServed(c, since, w.asked, node, Step(c, deleted, SetLands(t)));
      events := [SetLands(t)] + rest;
      RunCons(c, deleted, SetLands(t), rest);
    } else {
      var t :| MaySettle(c, w, t) && w.loads[t].node == node && w.loads[t].stage.copy.moment < since;
      events := StaleLoadIsServed(c, since, node, deleted, t);
    }
  }

  /** A load about to fill the local cache with an older copy does so, and the next call is served it. */
  lemma StaleLoadIsServed(c: Config, since: nat, node: nat, w: World, t: nat) returns (events: seq<Event>)
    requires c.localTtlMs > 0 && MaySettle(c, w, t)
    requires w.loads[t].node == node && w.loads[t].stage.copy.moment < since
    ensures !LaterAnswersFresh(since, w.asked, node, Run(c, w, events))
  {
    var w1 := Step(c, w, Settle(t));
    var w2 := Step(c, w1, Ask(node));
    events := [Settle(t)] + ([Ask(node)] + []);
    RunCons(c, w, Settle(t), [Ask(node)] + []);
    RunCons(c, w1, Ask(node), []);
    assert w2.answers[|w.answers| + 1] == Answer(w.asked, node, w.now, true, w.loads[t].stage.copy);
  }

  // ---------- the write of the row, what happens before it returns, and the invalidation

  /** No copy older than the moment is at large, so none can be. */
  ghost predicate NoneAtLarge(c: Config, since: nat, node: nat, w: World) {
    && since <= Latest(w.past)
    && FreshOrExpired(since, w.redis, w.now)
    && (forall t :: MayLand(c, w, t) ==> since <= w.sets[t].moment)
    && (c.localTtlMs <= 0 || forall t ::
          MaySettle(c, w, t) && w.loads[t].node == node ==> since <= w.loads[t].stage.copy.moment)
  }

  lemma NoneAtLargeIff(c: Config, since: nat, node: nat, w: World)
    requires since <= Latest(w.past)
    ensures NoneAtLarge(c, since, node, w) <==> !StaleCopyAtLarge(c, w, node, since)
  {
  }

  lemma LoadStepKeepsNoneAtLarge(c: Config, since: nat, node: nat, w: World, e: Event)
    requires NoneAtLarge(c, since, node, w) && (e.Ask? || e.RedisReply? || e.Settle?)
    ensures NoneAtLarge(c, since, node, Step(c, w, e))
  {
  }

  lemma ResolveKeepsNoneAtLarge(c: Config, since: nat, node: nat, w: World, ticket: nat, row: Row)
    requires NoneAtLarge(c, since, node, w) && ticket in w.loads
    ensures NoneAtLarge(c, since, node, Resolve(w, ticket, row))
    ensures NoneAtLarge(c, since, node, AtStage(w, ticket, AwaitCreate))
    ensures NoneAtLarge(c, since, node, w.(loads := w.loads - {ticket}))
  {
  }

  lemma WithRowKeepsNoneAtLarge(c: Config, since: nat, node: nat, w: World, row: Row)
    requires NoneAtLarge(c, since, node, w)
    ensures NoneAtLarge(c, since, node, WithRow(w, row))
  {
  }

  lemma StepKeepsNoneAtLarge(c: Config, since: nat, node: nat, w: World, e: Event)
    requires NoneAtLarge(c, since, node, w)
    ensures NoneAtLarge(c, since, node, Step(c, w, e))
  {
    if e.Ask? || e.RedisReply? || e.Settle? {
      LoadStepKeepsNoneAtLarge(c, since, node, w, e);
    } else if e.RowReply? || e.CreateReply? {
      hide NoneAtLarge, WithRow, Resolve, AtStage;
      if e.ticket in w.loads {
        var row := if w.db.Some? then w.db.value else DefaultRow(w.now);
        ResolveKeepsNoneAtLarge(c, since, node, w, e.ticket, row);
        WithRowKeepsNoneAtLarge(c, since, node, w, row);
        WithRowKeepsLoads(w, row);
        ResolveKeepsNoneAtLarge(c, since, node, WithRow(w, row), e.ticket, row);
      }
    }
  }

  lemma {:induction false} RunKeepsNoneAtLarge(c: Config, since: nat, node: nat, w: World, events: seq<Event>)
    requires NoneAtLarge(c, since, node, w)
    ensures NoneAtLarge(c, since, node, Run(c, w, events))
    decreases events
  {
    if events != [] {
      StepKeepsNoneAtLarge(c, since, node, w, events[0]);
      RunKeepsNoneAtLarge(c, since, node, Step(c, w, events[0]), events[1..]);
    }
  }

  /**
   `update` writes the row, waits for the write to return while other events happen, and then
   invalidates. Later reads in that process see the written row or a newer one in every continuation
   exactly when no copy older than the write is at large when the invalidation runs.
   */
  lemma UpdateIsSeenAfterIff(c: Config, w: World, patch: Patch, middle: seq<Event>, node: nat)
    requires Inv(c, w)
    ensures var written := Step(c, w, WriteRow(patch));
            var since, returned := Latest(written.past), Run(c, written, middle);
            InvalidationShows(c, returned, node, since) <==> !StaleCopyAtLarge(c, returned, node, since)
  {
    var written := Step(c, w, WriteRow(patch));
    StepKeepsInv(c, w, WriteRow(patch));
    RunKeepsInv(c, written, middle);
    RunKeepsPast(c, written, middle);
    InvalidationShowsIff(c, Run(c, written, middle), node, Latest(written.past));
  }

  /** Whatever happens before the write returns, later reads in the process see the written row. */
  ghost predicate UpdateIsAlwaysSeen(c: Config, w: World, patch: Patch, node: nat) {
    var written := Step(c, w, WriteRow(patch));
    forall middle :: InvalidationShows(c, Run(c, written, middle), node, Latest(written.past))
  }

  /**
   Whatever happens in between, later reads in the process see the written row in every continuation
   exactly when, at the write, Redis holds no live entry, no Redis write can still land and no load of
   the process can still settle: any such copy is made stale by the write.
   */
  lemma UpdateIsSeenIff(c: Config, w: World, patch: Patch, node: nat)
    requires Inv(c, w)
    ensures UpdateIsAlwaysSeen(c, w, patch, node) <==>
            && w.redis.Lookup(w.now).None?
            && (forall t :: !MayLand(c, w, t))
            && (c.localTtlMs <= 0 || forall t :: MaySettle(c, w, t) ==> w.loads[t].node != node)
  {
    var written := Step(c, w, WriteRow(patch));
    var since := Latest(written.past);
    AllOlderThanWrite(c, w, patch, node);
    NoneAtLargeIff(c, since, node, written);
    hide StaleCopyAtLarge, NoneAtLarge, InvalidationShows, Step;
    if NoneAtLarge(c, since, node, written) {
      forall middle ensures InvalidationShows(c, Run(c, written, middle), node, since) {
        RunKeepsNoneAtLarge(c, since, node, written, middle);
        RunKeepsPast(c, written, middle);
        NoneAtLargeIff(c, since, node, Run(c, written, middle));
        UpdateIsSeenAfterIff(c, w, patch, middle, node);
      }
    } else {
      UpdateIsSeenAfterIff(c, w, patch, [], node);
      assert Run(c, written, []) == written;
    }
  }

  lemma {:induction false} NoWriteKeepsPast(c: Config, w: World, events: seq<Event>)
    requires w.db.Some? && NoWrite(events)
    ensures Run(c, w, events).past == w.past && Run(c, w, events).db == w.db
    decreases events
  {
    if events != [] {
      NoWriteKeepsPast(c, Step(c, w, events[0]), events[1..]);
    }
  }

  /**
   Field by field: if at the write Redis holds no live entry, nothing can land in it and no load of the
   process can settle, then until the next write every later call in the process is answered with what
   was sent, and with what was there before for the rest.
   */
  lemma UpdateIsShown(c: Config, w: World, patch: Patch, middle: seq<Event>, node: nat, events: seq<Event>)
    requires Inv(c, w) && NoWrite(middle) && NoWrite(events)
    requires w.redis.Lookup(w.now).None?
    requires forall t :: !MayLand(c, w, t)
    requires c.localTtlMs <= 0 || forall t :: MaySettle(c, w, t) ==> w.loads[t].node != node
    ensures var returned := Run(c, Step(c, w, WriteRow(patch)), middle);
            var w' := Run(c, Step(c, returned, Invalidate(node)), events);
            forall i ::
              0 <= i < |w'.answers| && returned.asked <= w'.answers[i].ticket && w'.answers[i].node == node ==>
              ShowsUpdate(w'.answers[i].copy.value, w.db, patch, w.now)
  {
    var written := Step(c, w, WriteRow(patch));
    var returned := Run(c, written, middle);
    var rest := [Invalidate(node)] + events;
    var w' := Run(c, Step(c, returned, Invalidate(node)), events);
    assert w' == Run(c, written, middle + rest) by {
      RunCons(c, returned, Invalidate(node), events);
      RunConcat(c, written, middle, rest);
    }
    assert written.db.Some?;
    NoWriteKeepsPast(c, written, middle + rest);
    StepKeepsInv(c, w, WriteRow(patch));
    RunKeepsInv(c, written, middle + rest);
    UpdateIsSeenIff(c, w, patch, node);
    AnswersShowUpdate(c, w, patch, middle + rest);
    hide ShowsUpdate, Step, Run;
    assert InvalidationShows(c, returned, node, Latest(written.past));
    assert LaterAnswersFresh(Latest(written.past), returned.asked, node, w');
    forall i | 0 <= i < |w'.answers| ensures w'.answers[i].copy.moment <= Latest(written.past) {
      assert Recent(c, w', w'.answers[i]);
    }
  }

  /** Every copy there is at the write is older than what it writes. */
  lemma AllOlderThanWrite(c: Config, w: World, patch: Patch, node: nat)
    requires Inv(c, w)
    ensures var written := Step(c, w, WriteRow(patch));
            StaleCopyAtLarge(c, written, node, Latest(written.past)) <==>
            !(&& w.redis.Lookup(w.now).None?
              && (forall t :: !MayLand(c, w, t))
              && (c.localTtlMs <= 0 || forall t :: MaySettle(c, w, t) ==> w.loads[t].node != node))
  {
    var written := Step(c, w, WriteRow(patch));
    assert forall t :: MayLand(c, w, t) <==> MayLand(c, written, t);
    assert forall t :: MaySettle(c, w, t) <==> MaySettle(c, written, t);
  }
}
