/**
 Channel partners and the vendors linked to them: the stored state and the admin operations of
 `src/modules/admin-channel-partners/admin-channel-partners.service.ts`. Every operation is one
 atomic step; the new ids a database would generate are parameters.
 */
module Partners {
  import opened Common

  type UserId = string
  type PartnerId = string
  type PlanId = string

  datatype Role = VendorRole | OtherRole
  datatype Status = Active | Suspended
  datatype Source = ReferralCode | AdminAssigned | PartnerClaimed
  datatype PlanStatus = DraftPlan | ActivePlan | ArchivedPlan

  datatype Profile = Profile(
    userId: UserId, status: Status, displayName: Option<string>, notes: Option<string>, promotedBy: UserId)

  datatype Link = Link(
    isActive: bool, source: Source, notes: Option<string>,
    assignedBy: UserId, assignedAt: int, endedBy: Option<UserId>, endedAt: Option<int>)

  datatype Plan = Plan(
    partner: PartnerId, name: string, basis: string, ratePercent: real, minOrderValue: real, monthlyCap: real,
    status: PlanStatus, effectiveFrom: int, effectiveTo: Option<int>, notes: Option<string>, createdBy: UserId)

  /** Links are keyed by partner and vendor: the table has a unique key on the pair. */
  type Links = map<(PartnerId, UserId), Link>

  datatype Db = Db(
    users: map<UserId, Role>,
    profiles: map<PartnerId, Profile>,
    links: Links,
    plans: map<PlanId, Plan>)

  datatype Error =
    | VendorNotFound
    | NotAVendor
    | AlreadyAPartner
    | PartnerNotFound
    | SelfAssignment
    | LinkedElsewhere(vendors: set<UserId>)
    | NotLinked
    | IdTaken

  // ---------- the operations

  ghost predicate HasProfile(db: Db, user: UserId) {
    exists p :: p in db.profiles && db.profiles[p].userId == user
  }

  predicate IsVendor(db: Db, user: UserId) {
    user in db.users && db.users[user] == VendorRole
  }

  predicate IsLinked(links: Links, p: PartnerId, v: UserId) {
    (p, v) in links && links[(p, v)].isActive
  }

  /** The vendors among these that another partner holds. */
  function HeldElsewhere(links: Links, p: PartnerId, vendors: seq<UserId>): set<UserId> {
    set k | k in links && links[k].isActive && k.1 in vendors && k.0 != p :: k.1
  }

  datatype AssignInput = AssignInput(source: Source, notes: Option<string>, admin: UserId, now: int)

  function Upserted(links: Links, p: PartnerId, v: UserId, input: AssignInput): Links {
    links[(p, v) := Link(true, input.source, input.notes, input.admin, input.now, None, None)]
  }

  function UpsertedAll(links: Links, p: PartnerId, vendors: seq<UserId>, input: AssignInput): Links {
    if vendors == [] then links
    else Upserted(UpsertedAll(links, p, vendors[..|vendors| - 1], input), p, vendors[|vendors| - 1], input)
  }

  ghost function Promoted(
    db: Db, id: PartnerId, vendor: UserId, displayName: Option<string>, notes: Option<string>, admin: UserId)
    : Result<Db, Error>
  {
    if vendor !in db.users then Failure(VendorNotFound)
    else if db.users[vendor] != VendorRole then Failure(NotAVendor)
    else if HasProfile(db, vendor) then Failure(AlreadyAPartner)
    else if id in db.profiles then Failure(IdTaken)
    else Success(db.(profiles := db.profiles[id := Profile(vendor, Active, displayName, notes, admin)]))
  }

  datatype UpdateInput = UpdateInput(status: Option<Status>, displayName: Option<string>, notes: Option<string>)

  function Updated(db: Db, p: PartnerId, input: UpdateInput): Result<Db, Error> {
    if p !in db.profiles then Failure(PartnerNotFound)
    else
      var profile := db.profiles[p];
      Success(db.(profiles := db.profiles[p := profile.(
        status := Or(input.status, profile.status),
        displayName := if input.displayName.Some? then input.displayName else profile.displayName,
        notes := if input.notes.Some? then input.notes else profile.notes)]))
  }

  function Assigned(db: Db, p: PartnerId, vendors: seq<UserId>, input: AssignInput): Result<Db, Error> {
    if p !in db.profiles then Failure(PartnerNotFound)
    else if db.profiles[p].userId in vendors then Failure(SelfAssignment)
    else if HeldElsewhere(db.links, p, vendors) != {} then Failure(LinkedElsewhere(HeldElsewhere(db.links, p, vendors)))
    else if exists i :: 0 <= i < |vendors| && !(vendors[i] in db.users && db.users[vendors[i]] == VendorRole) then
      Failure(NotAVendor)
    else Success(db.(links := UpsertedAll(db.links, p, vendors, input)))
  }

  function Unassigned(
    db: Db, p: PartnerId, v: UserId, reason: Option<string>, admin: UserId, now: int): Result<Db, Error>
  {
    if !IsLinked(db.links, p, v) then Failure(NotLinked)
    else
      var link := db.links[(p, v)];
      Success(db.(links := db.links[(p, v) := link.(
        isActive := false, endedAt := Some(now), endedBy := Some(admin),
        notes := if reason.Some? then reason else link.notes)]))
  }

  function Archived(plans: map<PlanId, Plan>, p: PartnerId, now: int): map<PlanId, Plan> {
    map id | id in plans ::
      if plans[id].partner == p && plans[id].status == ActivePlan
      then plans[id].(status := ArchivedPlan, effectiveTo := Some(now)) else plans[id]
  }

  function Planned(db: Db, id: PlanId, plan: Plan, now: int): Result<Db, Error> {
    if plan.partner !in db.profiles then Failure(PartnerNotFound)
    else if id in db.plans then Failure(IdTaken)
    else
      var plans := if plan.status == ActivePlan then Archived(db.plans, plan.partner, now) else db.plans;
      Success(db.(plans := plans[id := plan]))
  }

  // ---------- what the operations accept and change

  /** A vendor without a profile gets an active one, with what was sent in it; anything else is refused. */
  lemma PromotedIff(
    db: Db, id: PartnerId, vendor: UserId, displayName: Option<string>, notes: Option<string>, admin: UserId)
    requires id !in db.profiles
    ensures var r := Promoted(db, id, vendor, displayName, notes, admin);
            && (r == Failure(VendorNotFound) <==> vendor !in db.users)
            && (r == Failure(NotAVendor) <==> vendor in db.users && db.users[vendor] != VendorRole)
            && (r == Failure(AlreadyAPartner) <==>
                  vendor in db.users && db.users[vendor] == VendorRole
                  && exists p :: p in db.profiles && db.profiles[p].userId == vendor)
            && (r.Failure? ==> r.error in {VendorNotFound, NotAVendor, AlreadyAPartner})
            && (r.Success? ==>
                  && r.value == db.(profiles := r.value.profiles) && r.value.profiles - {id} == db.profiles
                  && id in r.value.profiles
                  && var profile := r.value.profiles[id];
                     && profile.userId == vendor && profile.status == Active && profile.promotedBy == admin
                     && profile.displayName == displayName && profile.notes == notes)
  {
  }

  /** Each field sent is the one sent, each other is as it was, and nothing else changes. */
  lemma UpdatedFields(db: Db, p: PartnerId, input: UpdateInput)
    ensures var r := Updated(db, p, input);
            && (r == Failure(PartnerNotFound) <==> p !in db.profiles)
            && (p in db.profiles ==>
                  && r.Success? && r.value == db.(profiles := r.value.profiles)
                  && r.value.profiles.Keys == db.profiles.Keys && r.value.profiles - {p} == db.profiles - {p}
                  && var before, after := db.profiles[p], r.value.profiles[p];
                     && after.userId == before.userId && after.promotedBy == before.promotedBy
                     && (input.status.Some? ==> after.status == input.status.value)
                     && (input.status.None? ==> after.status == before.status)
                     && (input.displayName.Some? ==> after.displayName == input.displayName)
                     && (input.displayName.None? ==> after.displayName == before.displayName)
                     && (input.notes.Some? ==> after.notes == input.notes)
                     && (input.notes.None? ==> after.notes == before.notes))
  {
  }

  /** A batch is accepted exactly when all in it are vendors, none is the partner, and none is another's. */
  lemma AssignedIff(db: Db, p: PartnerId, vendors: seq<UserId>, input: AssignInput)
    ensures var r := Assigned(db, p, vendors, input);
            && (r.Success? <==>
                  && p in db.profiles && db.profiles[p].userId !in vendors
                  && (forall v :: v in vendors ==> v in db.users && db.users[v] == VendorRole)
                  && (forall v, q :: v in vendors && (q, v) in db.links && db.links[(q, v)].isActive ==> q == p))
            && (r.Failure? && r.error.LinkedElsewhere? ==>
                  forall v :: v in r.error.vendors <==>
                    v in vendors && exists q :: q != p && (q, v) in db.links && db.links[(q, v)].isActive)
            && (r == Failure(PartnerNotFound) <==> p !in db.profiles)
            && (r == Failure(SelfAssignment) <==> p in db.profiles && db.profiles[p].userId in vendors)
            && (r.Failure? && !r.error.LinkedElsewhere? ==> r.error in {PartnerNotFound, SelfAssignment, NotAVendor})
  {
    var held := HeldElsewhere(db.links, p, vendors);
    forall v ensures v in held <==> v in vendors && exists q :: q != p && IsLinked(db.links, q, v) {
      if q :| v in vendors && q != p && IsLinked(db.links, q, v) {
        assert (q, v).1 in held;
      }
      if v in held {
        var k :| k in db.links && db.links[k].isActive && k.0 != p && k.1 == v;
        assert k == (k.0, v) && IsLinked(db.links, k.0, v);
      }
    }
  }

  /** Exactly a live link can be ended. It stays in its row, with its end in it, and nothing else changes. */
  lemma UnassignedFields(db: Db, p: PartnerId, v: UserId, reason: Option<string>, admin: UserId, now: int)
    ensures var r := Unassigned(db, p, v, reason, admin, now);
            && (r == Failure(NotLinked) <==> (p, v) !in db.links || !db.links[(p, v)].isActive)
            && (r.Failure? ==> r.error == NotLinked)
            && (r.Success? ==>
                  && r.value == db.(links := r.value.links)
                  && r.value.links.Keys == db.links.Keys && r.value.links - {(p, v)} == db.links - {(p, v)}
                  && var before, after := db.links[(p, v)], r.value.links[(p, v)];
                     && !after.isActive && after.endedAt == Some(now) && after.endedBy == Some(admin)
                     && (reason.Some? ==> after.notes == reason) && (reason.None? ==> after.notes == before.notes)
                     && after.source == before.source && after.assignedBy == before.assignedBy
                     && after.assignedAt == before.assignedAt)
  {
  }

  /**
   A new plan is stored as sent. If it is active, the partner's plans that were active are archived as of
   now; no other plan changes.
   */
  lemma PlannedPlans(db: Db, id: PlanId, plan: Plan, now: int)
    requires plan.partner in db.profiles && id !in db.plans
    ensures var r := Planned(db, id, plan, now);
            && r.Success? && r.value == db.(plans := r.value.plans)
            && r.value.plans.Keys == db.plans.Keys + {id} && r.value.plans[id] == plan
            && forall k :: k in db.plans ==>
                 var ends := plan.status == ActivePlan && db.plans[k].partner == plan.partner
                             && db.plans[k].status == ActivePlan;
                 && (!ends ==> r.value.plans[k] == db.plans[k])
                 && (ends ==>
                       && r.value.plans[k].status == ArchivedPlan && r.value.plans[k].effectiveTo == Some(now)
                       && r.value.plans[k]
                          == db.plans[k].(status := ArchivedPlan, effectiveTo := r.value.plans[k].effectiveTo))
  {
  }

  // ---------- the service over the tables

  class ChannelPartners {
    var users: map<UserId, Role>
    var profiles: map<PartnerId, Profile>
    var links: Links
    var plans: map<PlanId, Plan>

    ghost function State(): Db
      reads this
    {
      Db(users, profiles, links, plans)
    }

    /** The outcome of an operation: on success the new state, on refusal the old one. */
    ghost predicate Did(result: Result<(), Error>, before: Db, expected: Result<Db, Error>)
      reads this
    {
      match expected
      case Success(db) => result == Success(()) && State() == db
      case Failure(error) => result == Failure(error) && State() == before
    }

    method Promote(id: PartnerId, vendor: UserId, displayName: Option<string>, notes: Option<string>, admin: UserId)
      returns (result: Result<(), Error>)
      modifies this`profiles
      ensures Did(result, old(State()), Promoted(old(State()), id, vendor, displayName, notes, admin))
    {
      if vendor !in users {
        return Failure(VendorNotFound);
      }
      if users[vendor] != VendorRole {
        return Failure(NotAVendor);
      }
      if exists p :: p in profiles && profiles[p].userId == vendor {
        return Failure(AlreadyAPartner);
      }
      if id in profiles {
        return Failure(IdTaken);
      }
      profiles := profiles[id := Profile(vendor, Active, displayName, notes, admin)];
      return Success(());
    }

    method Update(p: PartnerId, input: UpdateInput) returns (result: Result<(), Error>)
      modifies this`profiles
      ensures Did(result, old(State()), Updated(old(State()), p, input))
    {
      if p !in profiles {
        return Failure(PartnerNotFound);
      }
      var profile := profiles[p];
      if input.status.Some? {
        profile := profile.(status := input.status.value);
      }
      if input.displayName.Some? {
        profile := profile.(displayName := input.displayName);
      }
      if input.notes.Some? {
        profile := profile.(notes := input.notes);
      }
      profiles := profiles[p := profile];
      return Success(());
    }

    /** All or nothing: every check comes before the first write. */
    method AssignVendors(p: PartnerId, vendors: seq<UserId>, input: AssignInput) returns (result: Result<(), Error>)
      modifies this`links
      ensures Did(result, old(State()), Assigned(old(State()), p, vendors, input))
    {
      if p !in profiles {
        return Failure(PartnerNotFound);
      }
      if profiles[p].userId in vendors {
        return Failure(SelfAssignment);
      }
      var conflicts := set k | k in links && links[k].isActive && k.1 in vendors && k.0 != p :: k.1;
      if conflicts != {} {
        return Failure(LinkedElsewhere(conflicts));
      }
      if exists i :: 0 <= i < |vendors| && !(vendors[i] in users && users[vendors[i]] == VendorRole) {
        return Failure(NotAVendor);
      }
      for i := 0 to |vendors|
        invariant links == UpsertedAll(old(links), p, vendors[..i], input)
      {
        var key := (p, vendors[i]);
        if key in links {
          links := links[key := links[key].(
            isActive := true, assignedBy := input.admin, assignedAt := input.now, endedAt := None, endedBy := None,
            source := input.source, notes := input.notes)];
        } else {
          links := links[key := Link(true, input.source, input.notes, input.admin, input.now, None, None)];
        }
        assert vendors[..i + 1][..i] == vendors[..i];
      }
      assert vendors[..|vendors|] == vendors;
      return Success(());
    }

    /** The row of the link stays, with the end recorded in it. */
    method UnassignVendor(p: PartnerId, v: UserId, reason: Option<string>, admin: UserId, now: int)
      returns (result: Result<(), Error>)
      modifies this`links
      ensures Did(result, old(State()), Unassigned(old(State()), p, v, reason, admin, now))
    {
      if (p, v) !in links || !links[(p, v)].isActive {
        return Failure(NotLinked);
      }
      var link := links[(p, v)];
      link := link.(isActive := false, endedAt := Some(now), endedBy := Some(admin));
      if reason.Some? {
        link := link.(notes := reason);
      }
      links := links[(p, v) := link];
      return Success(());
    }

    method CreateCommissionPlan(id: PlanId, plan: Plan, now: int) returns (result: Result<(), Error>)
      modifies this`plans
      ensures Did(result, old(State()), Planned(old(State()), id, plan, now))
    {
      if plan.partner !in profiles {
        return Failure(PartnerNotFound);
      }
      if id in plans {
        return Failure(IdTaken);
      }
      if plan.status == ActivePlan {
        plans := map k | k in plans ::
          if plans[k].partner == plan.partner && plans[k].status == ActivePlan
          then plans[k].(status := ArchivedPlan, effectiveTo := Some(now)) else plans[k];
      }
      plans := plans[id := plan];
      return Success(());
    }
  }

  // ---------- every run of operations

  datatype Op =
    | Promote(id: PartnerId, vendor: UserId, name: Option<string>, promoteNotes: Option<string>, admin: UserId)
    | Update(partner: PartnerId, changes: UpdateInput)
    | Assign(partner: PartnerId, vendors: seq<UserId>, input: AssignInput)
    | Unassign(partner: PartnerId, vendor: UserId, reason: Option<string>, admin: UserId, at: int)
    | CreatePlan(planId: PlanId, plan: Plan, at: int)

  ghost function Outcome(db: Db, op: Op): Result<Db, Error> {
    match op
    case Promote(id, vendor, name, notes, admin) => Promoted(db, id, vendor, name, notes, admin)
    case Update(p, changes) => Updated(db, p, changes)
    case Assign(p, vendors, input) => Assigned(db, p, vendors, input)
    case Unassign(p, v, reason, admin, at) => Unassigned(db, p, v, reason, admin, at)
    case CreatePlan(id, plan, at) => Planned(db, id, plan, at)
  }

  /** A refused operation changes nothing. */
  ghost function Apply(db: Db, op: Op): Db {
    match Outcome(db, op)
    case Success(db') => db'
    case Failure(_) => db
  }

  ghost function Run(db: Db, ops: seq<Op>): Db
    decreases ops
  {
    if ops == [] then db else Run(Apply(db, ops[0]), ops[1..])
  }

  /** A database in which nobody has been promoted yet. */
  function Start(users: map<UserId, Role>): Db {
    Db(users, map[], map[], map[])
  }

  /** No two partners hold an active link to the same vendor. */
  ghost predicate Exclusive(links: Links) {
    forall p, q, v :: IsLinked(links, p, v) && IsLinked(links, q, v) ==> p == q
  }

  /** A link belongs to a known partner, is never to the partner's own account, and is active until it is ended. */
  ghost predicate LinksSound(db: Db) {
    forall k :: k in db.links ==>
      && k.0 in db.profiles && db.profiles[k.0].userId != k.1
      && (db.links[k].isActive <==> db.links[k].endedAt.None?)
      && (db.links[k].isActive <==> db.links[k].endedBy.None?)
  }

  ghost predicate OneProfilePerUser(profiles: map<PartnerId, Profile>) {
    forall p, q :: p in profiles && q in profiles && profiles[p].userId == profiles[q].userId ==> p == q
  }

  ghost predicate OneActivePlan(plans: map<PlanId, Plan>) {
    forall a, b :: IsActivePlan(plans, a) && IsActivePlan(plans, b) && plans[a].partner == plans[b].partner ==> a == b
  }

  ghost predicate IsActivePlan(plans: map<PlanId, Plan>, id: PlanId) {
    id in plans && plans[id].status == ActivePlan
  }

  /** Partners and the accounts linked to them are vendors. */
  ghost predicate VendorsOnly(db: Db) {
    && (forall p :: p in db.profiles ==> IsVendor(db, db.profiles[p].userId))
    && (forall k :: k in db.links ==> IsVendor(db, k.1))
  }

  ghost predicate Inv(db: Db) {
    && Exclusive(db.links) && LinksSound(db) && OneProfilePerUser(db.profiles) && OneActivePlan(db.plans)
    && VendorsOnly(db)
  }

  /** What linking a batch does, key by key; a vendor named twice is linked once. */
  lemma {:induction false} UpsertedAllAt(links: Links, p: PartnerId, vendors: seq<UserId>, input: AssignInput)
    ensures var links' := UpsertedAll(links, p, vendors, input);
            && links'.Keys == links.Keys + (set v | v in vendors :: (p, v))
            && forall k :: k in links' ==>
                 links'[k] == if k.0 == p && k.1 in vendors
                              then Link(true, input.source, input.notes, input.admin, input.now, None, None)
                              else links[k]
  {
    if vendors != [] {
      var rest, v := vendors[..|vendors| - 1], vendors[|vendors| - 1];
      assert vendors == rest + [v];
      UpsertedAllAt(links, p, rest, input);
    }
  }

  lemma AssignKeepsInv(db: Db, p: PartnerId, vendors: seq<UserId>, input: AssignInput)
    requires Inv(db) && Assigned(db, p, vendors, input).Success?
    ensures Inv(Assigned(db, p, vendors, input).value)
  {
    UpsertedAllAt(db.links, p, vendors, input);
    var links := UpsertedAll(db.links, p, vendors, input);
    forall q, r, v | IsLinked(links, q, v) && IsLinked(links, r, v) ensures q == r {
      if v in vendors {
        if q != p {
          HolderIsReported(db.links, p, vendors, q, v);
        }
        if r != p {
          HolderIsReported(db.links, p, vendors, r, v);
        }
      } else {
        assert IsLinked(db.links, q, v) && IsLinked(db.links, r, v);
      }
    }
  }

  lemma HolderIsReported(links: Links, p: PartnerId, vendors: seq<UserId>, q: PartnerId, v: UserId)
    requires IsLinked(links, q, v) && q != p && v in vendors
    ensures v in HeldElsewhere(links, p, vendors)
  {
    assert (q, v).1 == v;
  }

  lemma PromoteKeepsInv(db: Db, op: Op)
    requires Inv(db) && (op.Promote? || op.Update?)
    ensures Inv(Apply(db, op))
  {
    var db' := Apply(db, op);
    assert OneProfilePerUser(db'.profiles) by {
      if op.Promote? && db' != db {
        assert !HasProfile(db, op.vendor);
      }
    }
  }

  lemma UnassignKeepsInv(db: Db, op: Op)
    requires Inv(db) && op.Unassign?
    ensures Inv(Apply(db, op))
  {
    var links := Apply(db, op).links;
    assert forall p, v :: IsLinked(links, p, v) ==> IsLinked(db.links, p, v);
  }

  lemma PlanKeepsInv(db: Db, op: Op)
    requires Inv(db) && op.CreatePlan?
    ensures Inv(Apply(db, op))
  {
    if Apply(db, op) != db && op.plan.status == ActivePlan {
      var archived := Archived(db.plans, op.plan.partner, op.at);
      assert forall id :: IsActivePlan(archived, id) ==>
          archived[id].partner != op.plan.partner && IsActivePlan(db.plans, id);
    }
  }

  lemma StepKeepsInv(db: Db, op: Op)
    requires Inv(db)
    ensures Inv(Apply(db, op))
  {
    match op
    case Assign(p, vendors, input) =>
      if Assigned(db, p, vendors, input).Success? {
        AssignKeepsInv(db, p, vendors, input);
      }
    case Unassign(_, _, _, _, _) => UnassignKeepsInv(db, op);
    case CreatePlan(_, _, _) => PlanKeepsInv(db, op);
    case _ => PromoteKeepsInv(db, op);
  }

  /** A row once there is there for good, and no operation touches the users. */
  lemma StepKeepsRows(db: Db, op: Op)
    ensures var db' := Apply(db, op);
            && db.links.Keys <= db'.links.Keys
            && db.profiles.Keys <= db'.profiles.Keys
            && db.plans.Keys <= db'.plans.Keys
            && db'.users == db.users
            && forall p :: p in db.profiles ==> db'.profiles[p].userId == db.profiles[p].userId
  {
    if op.Assign? {
      UpsertedAllAt(db.links, op.partner, op.vendors, op.input);
    }
  }

  lemma {:induction false} RunKeepsInv(db: Db, ops: seq<Op>)
    requires Inv(db)
    ensures Inv(Run(db, ops))
    decreases ops
  {
    if ops != [] {
      StepKeepsInv(db, ops[0]);
      RunKeepsInv(Apply(db, ops[0]), ops[1..]);
    }
  }

  lemma {:induction false} RunKeepsRows(db: Db, ops: seq<Op>)
    ensures var db' := Run(db, ops);
            && db.links.Keys <= db'.links.Keys
            && db.profiles.Keys <= db'.profiles.Keys
            && db.plans.Keys <= db'.plans.Keys
            && forall p :: p in db.profiles ==> db'.profiles[p].userId == db.profiles[p].userId
    decreases ops
  {
    if ops != [] {
      StepKeepsRows(db, ops[0]);
      RunKeepsRows(Apply(db, ops[0]), ops[1..]);
    }
  }

  /**
   After any sequence of operations every vendor has at most one active link, nobody is linked to
   themselves, a link is active exactly while it has not been ended, and a partner has at most one
   active commission plan.
   */
  lemma ReachableStatesAreSound(users: map<UserId, Role>, ops: seq<Op>)
    ensures Inv(Run(Start(users), ops))
  {
    RunKeepsInv(Start(users), ops);
  }
}
