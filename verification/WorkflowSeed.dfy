/**
 Workflow templates: the numbering of steps in `prisma/seed/master/production.constants.ts`, their
 seeding with a chain of dependencies in `prisma/seed/master/workflow-templates.seed.ts`, and the
 wedding-card template of `scripts/seed-wedding-card-flow.ts`.
 */
module WorkflowSeed {
  import opened Common

  datatype StepDef = StepDef(code: string, department: string, order: int, reworkTarget: Option<string>)

  const ARTWORK := StepDef("ARTWORK_VERIFICATION", "ARTWORK", 1, None)
  const QC := StepDef("QUALITY_CHECK", "QC", 0, None)
  const PACKING := StepDef("PACKING", "PACKING", 0, None)
  const DISPATCH := StepDef("DISPATCH", "DISPATCH", 0, None)

  // ---------- numbering

  function Codes(steps: seq<StepDef>): seq<string> {
    seq(|steps|, i requires 0 <= i < |steps| => steps[i].code)
  }

  ghost predicate IncreasingOrders(steps: seq<StepDef>) {
    forall i, j :: 0 <= i < j < |steps| ==> steps[i].order < steps[j].order
  }

  ghost predicate DistinctCodes(steps: seq<StepDef>) {
    forall i, j :: 0 <= i < j < |steps| ==> steps[i].code != steps[j].code
  }

  /**
   Wraps production steps in verification before and checking, packing and dispatch after, renumbers
   all of them from 1, and sends rework from the check to the given step.
   */
  method WithFinish(production: seq<StepDef>, reworkTarget: string) returns (steps: seq<StepDef>)
    ensures Codes(steps) == [ARTWORK.code] + Codes(production) + [QC.code, PACKING.code, DISPATCH.code]
    ensures forall i :: 0 <= i < |steps| ==> steps[i].order == i + 1
    ensures IncreasingOrders(steps)
    ensures forall i :: 0 < i <= |production| ==> steps[i] == production[i - 1].(order := i + 1)
    ensures steps[0] == StepDef("ARTWORK_VERIFICATION", "ARTWORK", 1, None)
    ensures var n := |production|;
            && steps[n + 1] == StepDef("QUALITY_CHECK", "QC", n + 2, Some(reworkTarget))
            && steps[n + 2] == StepDef("PACKING", "PACKING", n + 3, None)
            && steps[n + 3] == StepDef("DISPATCH", "DISPATCH", n + 4, None)
  {
    var all := [ARTWORK] + production;
    var order := 1;
    steps := [];
    for i := 0 to |all|
      invariant order == i + 1 && |steps| == i
      invariant forall j :: 0 <= j < i ==> steps[j] == all[j].(order := j + 1)
    {
      steps := steps + [all[i].(order := order)];
      order := order + 1;
    }
    steps := steps + [QC.(order := order, reworkTarget := Some(reworkTarget))];
    order := order + 1;
    steps := steps + [PACKING.(order := order)];
    order := order + 1;
    steps := steps + [DISPATCH.(order := order)];
  }

  // ---------- the stored steps

  /** Ids are handed out in sequence. */
  type StepId = nat

  datatype StepRow = StepRow(
    template: string, code: string, departmentId: string, order: int, reworkTarget: Option<string>)

  type Steps = map<StepId, StepRow>

  /** Ids by step code. */
  type Ids = map<string, StepId>

  /** Department ids by code. */
  type Departments = map<string, string>

  /** The tables while one template is being seeded, with the map from step code to id. */
  datatype Seeding = Seeding(steps: Steps, nextId: StepId, byCode: Ids)

  function RowOf(template: string, def: StepDef, departmentId: string): StepRow {
    StepRow(template, def.code, departmentId, def.order, def.reworkTarget)
  }

  /** Another step of the template has this order: the database refuses a second one. */
  predicate OrderTaken(steps: Steps, template: string, id: StepId, order: int) {
    exists other :: other in steps && other != id && steps[other].template == template && steps[other].order == order
  }

  /** One step: skipped without its department, updated if its code is known, created otherwise. */
  function Upserted(s: Seeding, template: string, def: StepDef, departments: Departments): Option<Seeding> {
    if def.department !in departments then Some(s)
    else
      var id := if def.code in s.byCode then s.byCode[def.code] else s.nextId;
      var row := RowOf(template, def, departments[def.department]);
      if OrderTaken(s.steps, template, id, def.order) then None
      else
        var nextId := if def.code in s.byCode then s.nextId else s.nextId + 1;
        Some(Seeding(s.steps[id := row], nextId, s.byCode[def.code := id]))
  }

  /** The row holds what the definition says. */
  ghost predicate IsRowOf(row: StepRow, template: string, def: StepDef, departments: Departments) {
    && row.template == template && row.code == def.code && row.order == def.order
    && row.reworkTarget == def.reworkTarget
    && def.department in departments && row.departmentId == departments[def.department]
  }

  /**
   A step whose department is unknown is skipped. A known code keeps its id, a new one takes the next id,
   and the row under that id becomes what the definition says; no other step changes. It is refused
   exactly when another step of the template stands at its place in the order.
   */
  lemma UpsertedIs(s: Seeding, template: string, def: StepDef, departments: Departments)
    ensures def.department !in departments ==> Upserted(s, template, def, departments) == Some(s)
    ensures def.department in departments ==>
              var r := Upserted(s, template, def, departments);
              var id := if def.code in s.byCode then s.byCode[def.code] else s.nextId;
              && (r.None? <==> exists other :: other in s.steps && other != id
                                 && s.steps[other].template == template && s.steps[other].order == def.order)
              && (r.Some? ==>
                    && id in r.value.steps && IsRowOf(r.value.steps[id], template, def, departments)
                    && r.value.steps.Keys == s.steps.Keys + {id} && r.value.steps - {id} == s.steps - {id}
                    && def.code in r.value.byCode && r.value.byCode[def.code] == id
                    && r.value.byCode.Keys == s.byCode.Keys + {def.code}
                    && r.value.byCode - {def.code} == s.byCode - {def.code}
                    && r.value.nextId == s.nextId + if def.code in s.byCode then 0 else 1)
  {
  }

  function UpsertedAll(s: Seeding, template: string, defs: seq<StepDef>, departments: Departments): Option<Seeding> {
    if defs == [] then Some(s)
    else match UpsertedAll(s, template, defs[..|defs| - 1], departments)
      case None => None
      case Some(s') => Upserted(s', template, defs[|defs| - 1], departments)
  }

  /** The template's steps by increasing order. */
  ghost predicate InOrder(ids: seq<StepId>, steps: Steps, template: string) {
    && (forall id :: id in ids <==> id in steps && steps[id].template == template)
    && (forall i, j :: 0 <= i < j < |ids| ==> steps[ids[i]].order < steps[ids[j]].order)
  }

  /** Each step depends on the one before it. */
  function Chain(ids: seq<StepId>): set<(StepId, StepId)> {
    if |ids| <= 1 then {} else Chain(ids[..|ids| - 1]) + {(ids[|ids| - 1], ids[|ids| - 2])}
  }

  /** Nothing else is in the chain. */
  lemma {:induction false} InChainIff(ids: seq<StepId>, edge: (StepId, StepId))
    ensures edge in Chain(ids) <==> exists i, j :: 0 <= i && j == i + 1 && j < |ids| && edge == (ids[j], ids[i])
    decreases ids
  {
    if |ids| > 1 {
      var rest := ids[..|ids| - 1];
      InChainIff(rest, edge);
      if edge == (ids[|ids| - 1], ids[|ids| - 2]) {
        assert 0 <= |ids| - 2 && |ids| - 1 == (|ids| - 2) + 1;
      }
    }
  }

  /** The steps listed are the template's first ones in order; the others are left. */
  ghost predicate ListedSoFar(ids: seq<StepId>, left: set<StepId>, steps: Steps, template: string) {
    && (forall id :: id in ids || id in left <==> id in steps && steps[id].template == template)
    && (forall i, j :: 0 <= i < j < |ids| ==> steps[ids[i]].order < steps[ids[j]].order)
    && (forall i, id :: 0 <= i < |ids| && id in left ==> steps[ids[i]].order < steps[id].order)
  }

  lemma TakeLeast(ids: seq<StepId>, left: set<StepId>, steps: Steps, template: string, id: StepId)
    requires OrdersDistinct(steps) && ListedSoFar(ids, left, steps, template)
    requires id in left && forall other :: other in left ==> steps[id].order <= steps[other].order
    ensures ListedSoFar(ids + [id], left - {id}, steps, template)
  {
    forall other | other in left && other != id ensures steps[id].order < steps[other].order {
      assert steps[id].template == steps[other].template;
    }
  }

  ghost predicate OrdersDistinct(steps: Steps) {
    forall a, b ::
      a in steps && b in steps && steps[a].template == steps[b].template && steps[a].order == steps[b].order ==> a == b
  }

  lemma {:induction false} UpsertsKeepOrdersDistinct(
    s: Seeding, template: string, defs: seq<StepDef>, departments: Departments)
    requires OrdersDistinct(s.steps)
    ensures var result := UpsertedAll(s, template, defs, departments);
            result.Some? ==> OrdersDistinct(result.value.steps)
    decreases defs
  {
    if defs != [] {
      UpsertsKeepOrdersDistinct(s, template, defs[..|defs| - 1], departments);
    }
  }

  /** Each code leads to a step of the template with that code. */
  ghost predicate CodesLead(codes: Ids, steps: Steps, template: string) {
    forall c :: c in codes ==> codes[c] in steps && steps[codes[c]].template == template && steps[codes[c]].code == c
  }

  class WorkflowTables {
    var steps: Steps
    var nextId: StepId
    /** The codes of the templates that exist. */
    var templates: set<string>
    /** (step, step it waits for), all of type FINISH_TO_START. */
    var dependencies: set<(StepId, StepId)>

    constructor ()
      ensures steps == map[] && nextId == 0 && templates == {} && dependencies == {}
    {
      steps, nextId, templates, dependencies := map[], 0, {}, {};
    }

    method CreateStep(template: string, def: StepDef, departmentId: string) returns (id: StepId)
      modifies this`steps, this`nextId
      ensures id == old(nextId) && nextId == id + 1
      ensures steps == old(steps)[id := RowOf(template, def, departmentId)]
    {
      id := nextId;
      steps := steps[id := RowOf(template, def, departmentId)];
      nextId := nextId + 1;
    }

    /** The codes the template has already, with the ids of their steps. */
    method CodesOf(template: string) returns (byCode: Ids)
      ensures CodesLead(byCode, steps, template)
      ensures forall id :: id in steps && steps[id].template == template ==> steps[id].code in byCode
    {
      byCode := map[];
      var left := set id | id in steps && steps[id].template == template;
      ghost var all := left;
      while left != {}
        invariant left <= all
        invariant CodesLead(byCode, steps, template)
        invariant forall id :: id in all - left ==> steps[id].code in byCode
        decreases left
      {
        var id :| id in left;
        byCode := byCode[steps[id].code := id];
        left := left - {id};
      }
    }

    /** The query that lists a template's steps by `stepOrder`. */
    method StepsInOrder(template: string) returns (ids: seq<StepId>)
      requires OrdersDistinct(steps)
      ensures InOrder(ids, steps, template)
    {
      ids := [];
      var left := set id | id in steps && steps[id].template == template;
      while left != {}
        invariant ListedSoFar(ids, left, steps, template)
        decreases left
      {
        LeastExists(left, steps);
        var id :| id in left && forall other :: other in left ==> steps[id].order <= steps[other].order;
        TakeLeast(ids, left, steps, template, id);
        ids := ids + [id];
        left := left - {id};
      }
    }

    /**
     Seeds one template. Whatever is stored, the steps afterwards are those of the upserts in turn, and
     the only dependencies added are the chain over the template's steps in order. `codes` is the map
     from code to id it started from.
     */
    method SeedTemplate(template: string, defs: seq<StepDef>, departments: Departments)
      returns (ok: bool, ghost codes: Ids, ghost ids: seq<StepId>)
      requires OrdersDistinct(steps)
      modifies this
      ensures CodesLead(codes, old(steps), template)
      ensures forall id :: id in old(steps) && old(steps)[id].template == template ==> old(steps)[id].code in codes
      ensures var result := UpsertedAll(Seeding(old(steps), old(nextId), codes), template, defs, departments);
              && ok == result.Some?
              && (ok ==> steps == result.value.steps && nextId == result.value.nextId && OrdersDistinct(steps)
                         && InOrder(ids, steps, template) && dependencies == old(dependencies) + Chain(ids))
              && (!ok ==> dependencies == old(dependencies))
      ensures templates == old(templates) + {template}
    {
      hide OrdersDistinct, InOrder, Chain;
      templates := templates + {template};
      var stepIdsByCode: Ids := CodesOf(template);
      codes, ids := stepIdsByCode, [];
      ghost var start := Seeding(steps, nextId, codes);
      for i := 0 to |defs|
        invariant dependencies == old(dependencies) && templates == old(templates) + {template}
        invariant UpsertedAll(start, template, defs[..i], departments) == Some(Seeding(steps, nextId, stepIdsByCode))
      {
        var step := defs[i];
        assert defs[..i + 1][..i] == defs[..i];
        if step.department !in departments {
          continue;
        }
        var id := if step.code in stepIdsByCode then stepIdsByCode[step.code] else nextId;
        if OrderTaken(steps, template, id, step.order) {
          UpsertFails(start, template, defs, departments, i + 1);
          return false, codes, ids;
        }
        if step.code !in stepIdsByCode {
          nextId := nextId + 1;
        }
        steps := steps[id := StepRow(template, step.code, departments[step.department], step.order, step.reworkTarget)];
        stepIdsByCode := stepIdsByCode[step.code := id];
      }
      assert defs[..|defs|] == defs;
      UpsertsKeepOrdersDistinct(start, template, defs, departments);
      var stepRecords := StepsInOrder(template);
      LinkConsecutive(stepRecords);
      return true, codes, stepRecords;
    }

    /** Makes every step but the first wait for the one before it; a link that is there already is left alone. */
    method LinkConsecutive(ids: seq<StepId>)
      modifies this`dependencies
      ensures dependencies == old(dependencies) + Chain(ids)
    {
      var i := 1;
      while i < |ids|
        invariant 1 <= i && (|ids| > 0 ==> i <= |ids|)
        invariant dependencies == old(dependencies) + Chain(if i <= |ids| then ids[..i] else ids)
      {
        dependencies := dependencies + {(ids[i], ids[i - 1])};
        assert ids[..i + 1][..i] == ids[..i];
        i := i + 1;
      }
      assert |ids| > 0 ==> ids[..i] == ids;
    }
  }

  lemma {:induction false} LeastExists(ids: set<StepId>, steps: Steps)
    requires ids != {} && forall id :: id in ids ==> id in steps
    ensures exists id :: id in ids && forall other :: other in ids ==> steps[id].order <= steps[other].order
    decreases ids
  {
    var id :| id in ids;
    if ids != {id} {
      LeastExists(ids - {id}, steps);
      var least :|
        least in ids - {id} && forall other :: other in ids - {id} ==> steps[least].order <= steps[other].order;
      assert forall other :: other in ids ==> other == id || other in ids - {id};
      if steps[id].order < steps[least].order {
        assert id in ids;
      } else {
        assert least in ids;
      }
    }
  }

  /** Once a step is refused the seeding has failed. */
  lemma {:induction false} UpsertFails(
    s: Seeding, template: string, defs: seq<StepDef>, departments: Departments, n: nat)
    requires n <= |defs| && UpsertedAll(s, template, defs[..n], departments).None?
    ensures UpsertedAll(s, template, defs, departments).None?
    decreases |defs| - n
  {
    if n < |defs| {
      assert defs[..n + 1][..n] == defs[..n];
      UpsertFails(s, template, defs, departments, n + 1);
    } else {
      assert defs[..n] == defs;
    }
  }

  // ---------- seeding a fresh template, and seeding it again

  ghost predicate Known(defs: seq<StepDef>, departments: Departments) {
    forall i :: 0 <= i < |defs| ==> defs[i].department in departments
  }

  /** The template's steps are exactly the definitions, under consecutive ids from `first`. */
  ghost predicate Holds(steps: Steps, template: string, defs: seq<StepDef>, departments: Departments, first: StepId)
    requires Known(defs, departments)
  {
    && (forall id :: first <= id < first + |defs| ==>
          id in steps && steps[id] == RowOf(template, defs[id - first], departments[defs[id - first].department]))
    && (forall id :: id in steps && steps[id].template == template ==> first <= id < first + |defs|)
  }

  ghost predicate CodesAre(byCode: Ids, defs: seq<StepDef>, first: StepId) {
    && (forall c :: c in byCode ==> exists i :: 0 <= i < |defs| && c == defs[i].code)
    && (forall i :: 0 <= i < |defs| ==> defs[i].code in byCode && byCode[defs[i].code] == first + i)
  }

  /** What seeding has produced of a template that had no steps: the definitions, and nothing else that is new. */
  ghost predicate FreshlyHolds(
    result: Seeding, before: Steps, template: string, defs: seq<StepDef>, departments: Departments, first: StepId)
    requires Known(defs, departments)
  {
    && Holds(result.steps, template, defs, departments, first)
    && CodesAre(result.byCode, defs, first)
    && result.nextId == first + |defs|
    && (forall id :: id in before ==> id in result.steps && result.steps[id] == before[id])
    && (forall id :: id in result.steps ==> id in before || first <= id < first + |defs|)
  }

  lemma UpsertCreates(
    s: Seeding, before: Steps, template: string, defs: seq<StepDef>, departments: Departments, first: StepId)
    requires forall id :: id in before ==> id < first && before[id].template != template
    requires defs != [] && DistinctCodes(defs) && IncreasingOrders(defs) && Known(defs, departments)
    requires FreshlyHolds(s, before, template, defs[..|defs| - 1], departments, first)
    ensures var result := Upserted(s, template, defs[|defs| - 1], departments);
            result.Some? && FreshlyHolds(result.value, before, template, defs, departments, first)
  {
    var def := defs[|defs| - 1];
    assert def.code !in s.byCode by {
      LastCodeIsNew(s.byCode, defs, first);
    }
    assert !OrderTaken(s.steps, template, s.nextId, def.order) by {
      LastOrderIsFree(s.steps, template, defs, departments, first, s.nextId);
    }
    assert CodesAre(s.byCode[def.code := s.nextId], defs, first) by {
      CodesGrow(s.byCode, defs, first);
    }
    var row := RowOf(template, def, departments[def.department]);
    assert Holds(s.steps[s.nextId := row], template, defs, departments, first) by {
      StepsGrow(s.steps, template, defs, departments, first);
    }
  }

  lemma LastCodeIsNew(byCode: Ids, defs: seq<StepDef>, first: StepId)
    requires defs != [] && DistinctCodes(defs) && CodesAre(byCode, defs[..|defs| - 1], first)
    ensures defs[|defs| - 1].code !in byCode
  {
    var rest := defs[..|defs| - 1];
    forall i | 0 <= i < |rest| ensures rest[i].code != defs[|defs| - 1].code {
      assert rest[i] == defs[i];
    }
  }

  lemma LastOrderIsFree(
    steps: Steps, template: string, defs: seq<StepDef>, departments: Departments, first: StepId, id: StepId)
    requires defs != [] && IncreasingOrders(defs) && Known(defs, departments)
    requires Holds(steps, template, defs[..|defs| - 1], departments, first)
    ensures !OrderTaken(steps, template, id, defs[|defs| - 1].order)
  {
    var rest := defs[..|defs| - 1];
    forall other | other in steps && steps[other].template == template
      ensures steps[other].order < defs[|defs| - 1].order
    {
      assert rest[other - first] == defs[other - first];
    }
  }

  lemma CodesGrow(byCode: Ids, defs: seq<StepDef>, first: StepId)
    requires defs != [] && DistinctCodes(defs) && CodesAre(byCode, defs[..|defs| - 1], first)
    ensures CodesAre(byCode[defs[|defs| - 1].code := first + |defs| - 1], defs, first)
  {
    var rest := defs[..|defs| - 1];
    assert forall i :: 0 <= i < |rest| ==> rest[i] == defs[i];
    forall c | c in byCode ensures exists i :: 0 <= i < |defs| && c == defs[i].code {
      var i :| 0 <= i < |rest| && c == rest[i].code;
      assert c == defs[i].code;
    }
  }

  lemma StepsGrow(
    steps: Steps, template: string, defs: seq<StepDef>, departments: Departments, first: StepId)
    requires defs != [] && Known(defs, departments) && Holds(steps, template, defs[..|defs| - 1], departments, first)
    ensures var def := defs[|defs| - 1];
            var row := RowOf(template, def, departments[def.department]);
            Holds(steps[first + |defs| - 1 := row], template, defs, departments, first)
  {
    var rest := defs[..|defs| - 1];
    assert forall i :: 0 <= i < |rest| ==> rest[i] == defs[i];
  }

  /** On a template without steps, seeding creates exactly the defined steps. */
  lemma {:induction false} FreshSeedHolds(
    steps: Steps, first: StepId, template: string, defs: seq<StepDef>, departments: Departments)
    requires forall id :: id in steps ==> id < first && steps[id].template != template
    requires DistinctCodes(defs) && IncreasingOrders(defs) && Known(defs, departments)
    ensures var result := UpsertedAll(Seeding(steps, first, map[]), template, defs, departments);
            result.Some? && FreshlyHolds(result.value, steps, template, defs, departments, first)
    decreases defs
  {
    if defs != [] {
      FreshSeedHolds(steps, first, template, defs[..|defs| - 1], departments);
      UpsertCreates(UpsertedAll(Seeding(steps, first, map[]), template, defs[..|defs| - 1], departments).value,
                    steps, template, defs, departments, first);
    }
  }

  lemma UpsertChangesNothing(
    s: Seeding, template: string, defs: seq<StepDef>, departments: Departments, first: StepId, k: nat)
    requires Known(defs, departments) && Holds(s.steps, template, defs, departments, first)
    requires CodesAre(s.byCode, defs, first)
    requires IncreasingOrders(defs) && k < |defs|
    ensures Upserted(s, template, defs[k], departments) == Some(s)
  {
    var id, row := first + k, RowOf(template, defs[k], departments[defs[k].department]);
    assert s.byCode[defs[k].code] == id && s.steps[id] == row;
    forall other | other in s.steps && other != id && s.steps[other].template == template
      ensures s.steps[other].order != defs[k].order
    {
      assert s.steps[other].order == defs[other - first].order;
    }
    assert s.steps[id := row] == s.steps && s.byCode[defs[k].code := id] == s.byCode;
  }

  /** On a template that holds exactly these steps, seeding again changes no step and creates none. */
  lemma {:induction false} ReseedChangesNothing(
    s: Seeding, template: string, defs: seq<StepDef>, departments: Departments, first: StepId, n: nat)
    requires Known(defs, departments) && Holds(s.steps, template, defs, departments, first)
    requires CodesAre(s.byCode, defs, first)
    requires IncreasingOrders(defs) && n <= |defs|
    ensures UpsertedAll(s, template, defs[..n], departments) == Some(s)
    decreases n
  {
    if n > 0 {
      assert defs[..n][..n - 1] == defs[..n - 1];
      ReseedChangesNothing(s, template, defs, departments, first, n - 1);
      UpsertChangesNothing(s, template, defs, departments, first, n - 1);
    }
  }

  /** The ids in order are then the consecutive ones, so the chain is the successor chain over orders 1..n. */
  lemma OrderIsConsecutive(
    ids: seq<StepId>, steps: Steps, template: string, defs: seq<StepDef>, departments: Departments, first: StepId)
    requires Known(defs, departments) && IncreasingOrders(defs)
    requires Holds(steps, template, defs, departments, first) && InOrder(ids, steps, template)
    ensures |ids| == |defs| && forall i :: 0 <= i < |ids| ==> ids[i] == first + i
  {
    var consecutive := seq(|defs|, i => first + i);
    ConsecutiveIsInOrder(consecutive, steps, template, defs, departments, first);
    OrderIsUnique(ids, consecutive, steps, template, |ids|);
    OrderIsUnique(consecutive, ids, steps, template, |consecutive|);
  }

  lemma ConsecutiveIsInOrder(
    ids: seq<StepId>, steps: Steps, template: string, defs: seq<StepDef>, departments: Departments, first: StepId)
    requires Known(defs, departments) && IncreasingOrders(defs) && Holds(steps, template, defs, departments, first)
    requires |ids| == |defs| && forall i :: 0 <= i < |ids| ==> ids[i] == first + i
    ensures InOrder(ids, steps, template)
  {
    forall id | id in steps && steps[id].template == template ensures id in ids {
      assert ids[id - first] == id;
    }
    forall i | 0 <= i < |ids|
      ensures ids[i] in steps && steps[ids[i]].order == defs[i].order && steps[ids[i]].template == template
    {
      assert first <= ids[i] < first + |defs|;
    }
  }

  /** Two listings by strictly increasing order agree position by position. */
  lemma {:induction false} OrderIsUnique(a: seq<StepId>, b: seq<StepId>, steps: Steps, template: string, n: nat)
    requires InOrder(a, steps, template) && InOrder(b, steps, template) && n <= |a|
    ensures n <= |b| && a[..n] == b[..n]
    decreases n
  {
    if n > 0 {
      OrderIsUnique(a, b, steps, template, n - 1);
      forall k | 0 <= k < n - 1 ensures a[k] == b[k] {
        assert a[..n - 1][k] == b[..n - 1][k];
      }
      var i := NotBefore(a, b, steps, template, n - 1);
      var j := NotBefore(b, a, steps, template, n - 1);
      assert steps[a[n - 1]].order <= steps[a[j]].order && steps[b[n - 1]].order <= steps[b[i]].order;
      assert i == n - 1;
    }
  }

  /** After a common beginning, the next element of one listing stands no earlier in the other. */
  lemma NotBefore(a: seq<StepId>, b: seq<StepId>, steps: Steps, template: string, n: nat) returns (i: nat)
    requires InOrder(a, steps, template) && InOrder(b, steps, template)
    requires n < |a| && n <= |b| && forall k :: 0 <= k < n ==> a[k] == b[k]
    ensures n <= i < |b| && b[i] == a[n]
  {
    assert a[n] in a;
    i := IndexOf(b, a[n]);
  }

  lemma IndexOf(a: seq<StepId>, x: StepId) returns (j: nat)
    requires x in a
    ensures j < |a| && a[j] == x
  {
    j :| 0 <= j < |a| && a[j] == x;
  }

  /**
   Seeding any steps with distinct codes, increasing orders and known departments on a template that
   has none yields exactly those steps, each waiting for exactly the one before it.
   */
  lemma FreshSeedIsSuccessorChain(
    steps: Steps, first: StepId, template: string, defs: seq<StepDef>, departments: Departments, ids: seq<StepId>)
    requires forall id :: id in steps ==> id < first && steps[id].template != template
    requires DistinctCodes(defs) && IncreasingOrders(defs) && Known(defs, departments)
    requires var result := UpsertedAll(Seeding(steps, first, map[]), template, defs, departments);
             result.Some? ==> InOrder(ids, result.value.steps, template)
    ensures var result := UpsertedAll(Seeding(steps, first, map[]), template, defs, departments);
            && result.Some?
            && Holds(result.value.steps, template, defs, departments, first)
            && |ids| == |defs|
            && forall edge :: edge in Chain(ids) <==> first <= edge.1 && edge.0 == edge.1 + 1 && edge.0 < first + |defs|
  {
    FreshSeedHolds(steps, first, template, defs, departments);
    hide UpsertedAll, Chain;
    var result := UpsertedAll(Seeding(steps, first, map[]), template, defs, departments).value;
    OrderIsConsecutive(ids, result.steps, template, defs, departments, first);
    forall edge ensures edge in Chain(ids) <==> first <= edge.1 && edge.0 == edge.1 + 1 && edge.0 < first + |defs| {
      ConsecutiveChain(ids, first, edge);
    }
  }

  lemma ConsecutiveChain(ids: seq<StepId>, first: StepId, edge: (StepId, StepId))
    requires forall i :: 0 <= i < |ids| ==> ids[i] == first + i
    ensures edge in Chain(ids) <==> first <= edge.1 && edge.0 == edge.1 + 1 && edge.0 < first + |ids|
  {
    InChainIff(ids, edge);
    if first <= edge.1 && edge.0 == edge.1 + 1 && edge.0 < first + |ids| {
      assert edge == (ids[edge.0 - first], ids[edge.1 - first]);
    }
  }

  lemma CodesOfHeld(
    steps: Steps, template: string, defs: seq<StepDef>, departments: Departments,
    first: StepId, codes: Ids)
    requires DistinctCodes(defs) && Known(defs, departments) && Holds(steps, template, defs, departments, first)
    requires CodesLead(codes, steps, template)
    requires forall id :: id in steps && steps[id].template == template ==> steps[id].code in codes
    ensures CodesAre(codes, defs, first)
  {
    forall c | c in codes ensures exists i :: 0 <= i < |defs| && c == defs[i].code {
      assert steps[codes[c]].code == defs[codes[c] - first].code;
    }
    forall i | 0 <= i < |defs| ensures defs[i].code in codes && codes[defs[i].code] == first + i {
      var id := first + i;
      assert first <= id < first + |defs| && steps[id].code == defs[i].code;
      assert steps[codes[defs[i].code]].code == defs[codes[defs[i].code] - first].code;
    }
  }

  /** Seeding the same steps again changes no step, and links them in the same order, so adds no dependency. */
  lemma ReseedAddsNothing(
    steps: Steps, nextId: StepId, template: string, defs: seq<StepDef>, departments: Departments,
    first: StepId, codes: Ids, ids: seq<StepId>, again: seq<StepId>)
    requires DistinctCodes(defs) && IncreasingOrders(defs) && Known(defs, departments)
    requires Holds(steps, template, defs, departments, first) && InOrder(ids, steps, template)
    requires CodesLead(codes, steps, template)
    requires forall id :: id in steps && steps[id].template == template ==> steps[id].code in codes
    requires var result := UpsertedAll(Seeding(steps, nextId, codes), template, defs, departments);
             result.Some? ==> InOrder(again, result.value.steps, template)
    ensures var s := Seeding(steps, nextId, codes); UpsertedAll(s, template, defs, departments) == Some(s)
    ensures again == ids && Chain(again) == Chain(ids)
  {
    hide UpsertedAll, Chain;
    var s := Seeding(steps, nextId, codes);
    assert UpsertedAll(s, template, defs, departments) == Some(s) by {
      CodesOfHeld(steps, template, defs, departments, first, codes);
      ReseedChangesNothing(s, template, defs, departments, first, |defs|);
      assert defs[..|defs|] == defs;
    }
    OrderIsConsecutive(ids, steps, template, defs, departments, first);
    OrderIsConsecutive(again, steps, template, defs, departments, first);
  }

  // ---------- the wedding-card template

  const WEDDING_STEPS: seq<StepDef> := [
    StepDef("DESIGN", "DESIGN", 1, None),
    StepDef("PROOF_APPROVAL", "DESIGN", 2, Some("DESIGN")),
    StepDef("SAMPLE_PRODUCTION", "PRINTING", 3, None),
    StepDef("SAMPLE_APPROVAL", "PRINTING", 4, Some("DESIGN")),
    StepDef("FULL_PRODUCTION", "PRINTING", 5, None)]

  const WEDDING_ORDER: seq<string> := [
    "DESIGN", "PROOF_APPROVAL", "SAMPLE_PRODUCTION", "SAMPLE_APPROVAL", "FULL_PRODUCTION"]

  lemma WeddingCodes()
    ensures |WEDDING_STEPS| == |WEDDING_ORDER| == 5
    ensures Codes(WEDDING_STEPS) == WEDDING_ORDER && DistinctCodes(WEDDING_STEPS)
  {
    assert WEDDING_ORDER[0][0] == 'D' && WEDDING_ORDER[1][0] == 'P';
    assert WEDDING_ORDER[2][0] == 'S' && WEDDING_ORDER[4][0] == 'F';
    assert WEDDING_ORDER[2][7] == 'P' && WEDDING_ORDER[3][7] == 'A' && WEDDING_ORDER[3][0] == 'S';
  }

  /** Ids in use lie below the next one. */
  ghost predicate IdsAreBelow(steps: Steps, nextId: StepId) {
    forall id :: id in steps ==> id < nextId
  }

  /**
   Leaves an existing template untouched. Otherwise creates its five steps and links each to the one
   before: design, proof approval, sample, sample approval, full production. No other step changes.
   */
  method EnsureWeddingCardTemplate(tables: WorkflowTables, template: string, departments: Departments)
    returns (ghost ids: seq<StepId>)
    requires "DESIGN" in departments && "PRINTING" in departments
    requires IdsAreBelow(tables.steps, tables.nextId)
    modifies tables
    ensures tables.templates == old(tables.templates) + {template} && IdsAreBelow(tables.steps, tables.nextId)
    ensures template in old(tables.templates) ==>
              && tables.steps == old(tables.steps) && tables.nextId == old(tables.nextId)
              && tables.dependencies == old(tables.dependencies)
    ensures template !in old(tables.templates) ==>
              && |ids| == |WEDDING_STEPS|
              && tables.dependencies == old(tables.dependencies) + Chain(ids)
              && StepsAdded(
                   tables.steps, old(tables.steps), old(tables.nextId), ids, template, WEDDING_STEPS, departments)
  {
    ids := [];
    if template in tables.templates {
      return;
    }
    tables.templates := tables.templates + {template};
    var created: Ids;
    WeddingCodes();
    created, ids := CreateSteps(tables, template, WEDDING_STEPS, departments);
    LinkWeddingSteps(tables, created, ids);
  }

  /** These are the steps defined, under consecutive ids, and nothing else is new. */
  ghost predicate StepsAdded(
    steps: Steps, before: Steps, first: StepId, ids: seq<StepId>, template: string,
    defs: seq<StepDef>, departments: Departments)
    requires Known(defs, departments)
  {
    && |ids| <= |defs|
    && steps.Keys == before.Keys + Elements(ids)
    && (forall id :: id in before ==> steps[id] == before[id])
    && forall i :: 0 <= i < |ids| ==>
         && ids[i] == first + i && ids[i] in steps
         && steps[ids[i]] == RowOf(template, defs[i], departments[defs[i].department])
  }

  /** The codes of the first steps lead to their ids. */
  ghost predicate CreatedAre(created: Ids, ids: seq<StepId>, defs: seq<StepDef>)
    requires |ids| <= |defs|
  {
    forall i :: 0 <= i < |ids| ==> defs[i].code in created && created[defs[i].code] == ids[i]
  }

  /** The first `n` steps are created, and their ids remembered by code. */
  ghost predicate CreatedSoFar(
    steps: Steps, nextId: StepId, created: Ids, before: Steps, first: StepId,
    ids: seq<StepId>, template: string, defs: seq<StepDef>, departments: Departments, n: nat)
  {
    && Known(defs, departments) && DistinctCodes(defs)
    && |ids| == n <= |defs| && nextId == first + n && IdsAreBelow(steps, nextId)
    && StepsAdded(steps, before, first, ids, template, defs, departments)
    && CreatedAre(created, ids, defs)
  }

  lemma OneMoreStep(
    steps: Steps, nextId: StepId, created: Ids, before: Steps, first: StepId,
    ids: seq<StepId>, template: string, defs: seq<StepDef>, departments: Departments, n: nat)
    requires n < |defs| && CreatedSoFar(steps, nextId, created, before, first, ids, template, defs, departments, n)
    ensures CreatedSoFar(
              steps[nextId := RowOf(template, defs[n], departments[defs[n].department])], nextId + 1,
              created[defs[n].code := nextId], before, first, ids + [nextId], template, defs, departments, n + 1)
  {
    assert Elements(ids + [nextId]) == Elements(ids) + {nextId};
  }

  lemma NoStepsYet(
    steps: Steps, nextId: StepId, template: string, defs: seq<StepDef>, departments: Departments)
    requires Known(defs, departments) && DistinctCodes(defs) && IdsAreBelow(steps, nextId)
    ensures CreatedSoFar(steps, nextId, map[], steps, nextId, [], template, defs, departments, 0)
  {
    assert steps.Keys == steps.Keys + Elements<StepId>([]);
  }

  /** Creates the steps in turn and remembers their ids by code. */
  method CreateSteps(tables: WorkflowTables, template: string, defs: seq<StepDef>, departments: Departments)
    returns (created: Ids, ghost ids: seq<StepId>)
    requires Known(defs, departments) && DistinctCodes(defs)
    requires IdsAreBelow(tables.steps, tables.nextId)
    modifies tables`steps, tables`nextId
    ensures CreatedSoFar(tables.steps, tables.nextId, created, old(tables.steps), old(tables.nextId), ids, template,
                         defs, departments, |defs|)
  {
    created, ids := map[], [];
    NoStepsYet(tables.steps, tables.nextId, template, defs, departments);
    hide CreatedSoFar, DistinctCodes;
    for i := 0 to |defs|
      invariant CreatedSoFar(tables.steps, tables.nextId, created, old(tables.steps), old(tables.nextId), ids, template,
                             defs, departments, i)
    {
      var step := defs[i];
      OneMoreStep(tables.steps, tables.nextId, created, old(tables.steps), old(tables.nextId), ids, template, defs,
                  departments, i);
      var id := tables.CreateStep(template, step, departments[step.department]);
      created := created[step.code := id];
      ids := ids + [id];
    }
  }

  method LinkWeddingSteps(tables: WorkflowTables, created: Ids, ghost ids: seq<StepId>)
    requires |ids| == |WEDDING_STEPS| && CreatedAre(created, ids, WEDDING_STEPS)
    modifies tables`dependencies
    ensures tables.dependencies == old(tables.dependencies) + Chain(ids)
  {
    WeddingCodes();
    assert forall j :: 0 <= j < 5 ==> WEDDING_ORDER[j] == Codes(WEDDING_STEPS)[j] == WEDDING_STEPS[j].code;
    for i := 1 to |WEDDING_ORDER|
      invariant tables.dependencies == old(tables.dependencies) + Chain(ids[..i])
    {
      tables.dependencies := tables.dependencies + {(created[WEDDING_ORDER[i]], created[WEDDING_ORDER[i - 1]])};
      assert ids[..i + 1][..i] == ids[..i];
    }
    assert ids[..|ids|] == ids;
  }
}
