/**
 Loading only the links reachable upward from the subject company
 (`collectRelevantOwnershipLinks`), and why nothing the engine looks at is missed.
 */
module OwnershipSubgraph {
  import opened Sequences
  import opened Strings
  import opened OwnershipLinks

  const SUBGRAPH_MAX_WAVES: nat := 48
  const IN_QUERY_CHUNK: nat := 400

  /** The companies `collectRelevantOwnershipLinks` queues next after loading the owners of `orgs`. */
  ghost function Queued(live: seq<Link>, orgs: set<string>): set<string> {
    set l | l in live && l.ownedOrganisationNumber in orgs && Parent(l) != "" :: Parent(l)
  }

  /** The companies whose owners have been queried once `n` further waves have run. */
  ghost function Waves(live: seq<Link>, root: string, n: nat): set<string> {
    if n == 0 then {root} else Waves(live, root, n - 1) + Queued(live, Waves(live, root, n - 1))
  }

  /** The companies whose owners are loaded: the waves are cut off after the 48th. */
  ghost function QueriedOrgs(live: seq<Link>, root: string): set<string> {
    Waves(live, root, SUBGRAPH_MAX_WAVES - 1)
  }

  lemma QueuedUnion(live: seq<Link>, a: set<string>, b: set<string>)
    ensures Queued(live, a + b) == Queued(live, a) + Queued(live, b)
  {
  }

  /** Querying what a wave left over completes the next wave. */
  lemma NextWave(live: seq<Link>, root: string, wave: nat, before: set<string>, added: set<string>)
    requires before + added == Waves(live, root, wave) && Queued(live, before) <= before + added
    ensures Waves(live, root, wave + 1) == before + added + Queued(live, added)
    ensures Queued(live, before + added) <= before + added + Queued(live, added)
  {
    QueuedUnion(live, before, added);
    hide Queued;
    assert Waves(live, root, wave + 1) == Waves(live, root, wave) + Queued(live, Waves(live, root, wave));
  }

  lemma {:induction false} WavesSettle(live: seq<Link>, root: string, m: nat, n: nat)
    requires m <= n && Queued(live, Waves(live, root, m)) <= Waves(live, root, m)
    ensures Waves(live, root, n) == Waves(live, root, m)
  {
    hide Queued;
    if m < n {
      WavesSettle(live, root, m, n - 1);
    }
  }

  lemma AllQueried(live: seq<Link>, root: string, n: nat, orgs: set<string>)
    requires n < SUBGRAPH_MAX_WAVES && orgs == Waves(live, root, n)
    requires n == SUBGRAPH_MAX_WAVES - 1 || Queued(live, orgs) <= orgs
    ensures orgs == QueriedOrgs(live, root)
  {
    if n < SUBGRAPH_MAX_WAVES - 1 {
      WavesSettle(live, root, n, SUBGRAPH_MAX_WAVES - 1);
    }
  }

  function StoredIn(orgs: set<string>): Link -> bool {
    (l: Link) => l.ownedOrganisationNumber in orgs
  }

  /** One query: the live links into any of `orgs`, newest first. */
  function Query(live: seq<Link>, orgs: set<string>): seq<Link> {
    Filter(StoredIn(orgs), live)
  }

  /** `links` holds exactly the live links into `orgs`, those of each company in table order. */
  ghost predicate HoldsOwnersOf(links: seq<Link>, live: seq<Link>, orgs: set<string>) {
    && (forall l :: l in links ==> l in live && l.ownedOrganisationNumber in orgs)
    && (forall org :: org in orgs ==> Filter(StoredAs(org), links) == Filter(StoredAs(org), live))
  }

  lemma HoldsNothingElse(links: seq<Link>, live: seq<Link>, orgs: set<string>, org: string)
    requires HoldsOwnersOf(links, live, orgs) && org !in orgs
    ensures Filter(StoredAs(org), links) == []
  {
    FilterNone(StoredAs(org), links);
  }

  lemma LoadedChunk(links: seq<Link>, live: seq<Link>, orgs: set<string>, chunk: set<string>)
    requires HoldsOwnersOf(links, live, orgs) && chunk !! orgs
    ensures HoldsOwnersOf(links + Query(live, chunk), live, orgs + chunk)
  {
    var batch := Query(live, chunk);
    FilterMembers(StoredIn(chunk), live);
    forall org | org in orgs + chunk
      ensures Filter(StoredAs(org), links + batch) == Filter(StoredAs(org), live)
    {
      FilterConcat(StoredAs(org), links, batch);
      if org in orgs {
        FilterNone(StoredAs(org), batch);
      } else {
        HoldsNothingElse(links, live, orgs, org);
        FilterWithin(StoredAs(org), StoredIn(chunk), live);
      }
    }
  }

  lemma {:induction false} FilterUniqueIds(p: Link -> bool, links: seq<Link>)
    requires UniqueIds(links)
    ensures UniqueIds(Filter(p, links))
  {
    if links != [] {
      FilterUniqueIds(p, links[1..]);
      FilterMembers(p, links[1..]);
      assert forall l :: l in links[1..] ==> l.id != links[0].id;
      assert forall l :: l in Filter(p, links[1..]) ==> l.id != links[0].id;
    }
  }

  ghost function LinkIds(links: seq<Link>): set<string> {
    if links == [] then {} else LinkIds(links[..|links| - 1]) + {links[|links| - 1].id}
  }

  /** The companies the owners in `links` are to be looked up for. */
  ghost function ParentsIn(links: seq<Link>): set<string> {
    if links == [] then {} else
      var l := links[|links| - 1];
      ParentsIn(links[..|links| - 1]) + if Parent(l) != "" then {Parent(l)} else {}
  }

  lemma {:induction false} LinkIdsMembers(links: seq<Link>)
    ensures forall l :: l in links ==> l.id in LinkIds(links)
    ensures forall x :: x in LinkIds(links) ==> exists l :: l in links && l.id == x
  {
    if links != [] {
      LinkIdsMembers(links[..|links| - 1]);
      assert links == links[..|links| - 1] + [links[|links| - 1]];
    }
  }

  lemma {:induction false} LinkIdsConcat(a: seq<Link>, b: seq<Link>)
    ensures LinkIds(a + b) == LinkIds(a) + LinkIds(b)
  {
    if b == [] {
      assert a + b == a;
    } else {
      assert (a + b)[..|a + b| - 1] == a + b[..|b| - 1];
      LinkIdsConcat(a, b[..|b| - 1]);
    }
  }

  lemma {:induction false} ParentsInMembers(links: seq<Link>)
    ensures forall l :: l in links && Parent(l) != "" ==> Parent(l) in ParentsIn(links)
    ensures forall p :: p in ParentsIn(links) ==> exists l :: l in links && Parent(l) == p != ""
  {
    if links != [] {
      ParentsInMembers(links[..|links| - 1]);
      assert links == links[..|links| - 1] + [links[|links| - 1]];
    }
  }

  lemma QueuedByAnswer(live: seq<Link>, chunk: set<string>)
    ensures ParentsIn(Query(live, chunk)) == Queued(live, chunk)
  {
    var batch := Query(live, chunk);
    ParentsInMembers(batch);
    FilterMembers(StoredIn(chunk), live);
    forall p | p in Queued(live, chunk)
      ensures p in ParentsIn(batch)
    {
      var l :| l in live && l.ownedOrganisationNumber in chunk && Parent(l) != "" && Parent(l) == p;
      assert l in batch;
    }
  }

  /** Nothing in the answer about companies not asked for before was loaded already. */
  lemma AnswerIsNew(links: seq<Link>, live: seq<Link>, orgs: set<string>, chunk: set<string>)
    requires UniqueIds(live) && HoldsOwnersOf(links, live, orgs) && chunk !! orgs
    ensures UniqueIds(Query(live, chunk))
    ensures forall l :: l in Query(live, chunk) ==> l.id !in LinkIds(links)
  {
    FilterMembers(StoredIn(chunk), live);
    FilterUniqueIds(StoredIn(chunk), live);
    LinkIdsMembers(links);
  }

  /** The links of an answer that were neither seen before nor earlier in the answer. */
  ghost function Unseen(batch: seq<Link>, seenLinkIds: set<string>): seq<Link> {
    if batch == [] then [] else
      var before := batch[..|batch| - 1];
      var link := batch[|batch| - 1];
      Unseen(before, seenLinkIds) + if link.id in seenLinkIds + LinkIds(before) then [] else [link]
  }

  /** The loop over one answer: its unseen links are kept, and the companies they lead to are queued. */
  method AbsorbBatch(batch: seq<Link>, collected: seq<Link>, seenLinkIds: set<string>, frontier: set<string>)
    returns (collected': seq<Link>, seenLinkIds': set<string>, frontier': set<string>)
    ensures collected' == collected + Unseen(batch, seenLinkIds)
    ensures seenLinkIds' == seenLinkIds + LinkIds(batch)
    ensures frontier' == frontier + ParentsIn(Unseen(batch, seenLinkIds))
  {
    hide LinkIds, ParentsIn, Digits, Unseen;
    NothingAbsorbed(seenLinkIds);
    collected', seenLinkIds', frontier' := collected, seenLinkIds, frontier;
    for i := 0 to |batch|
      invariant collected' == collected + Unseen(batch[..i], seenLinkIds)
      invariant seenLinkIds' == seenLinkIds + LinkIds(batch[..i])
      invariant frontier' == frontier + ParentsIn(Unseen(batch[..i], seenLinkIds))
    {
      var link := batch[i];
      NextAbsorbed(batch, i, seenLinkIds);
      if link.id !in seenLinkIds' {
        seenLinkIds' := seenLinkIds' + {link.id};
        collected' := collected' + [link];
        if HasParent(link) {
          var od := Digits(link.ownerOrganisationNumber.value);
          if od != "" {
            frontier' := frontier' + {od};
          }
        }
      }
    }
    assert batch[..|batch|] == batch;
  }

  lemma NothingAbsorbed(seenLinkIds: set<string>)
    ensures Unseen([], seenLinkIds) == [] && LinkIds([]) == {} && ParentsIn([]) == {}
  {
  }

  lemma NextAbsorbed(batch: seq<Link>, i: nat, seenLinkIds: set<string>)
    requires i < |batch|
    ensures Unseen(batch[..i + 1], seenLinkIds) ==
            if batch[i].id in seenLinkIds + LinkIds(batch[..i]) then Unseen(batch[..i], seenLinkIds)
            else Unseen(batch[..i], seenLinkIds) + [batch[i]]
    ensures LinkIds(batch[..i + 1]) == LinkIds(batch[..i]) + {batch[i].id}
    ensures ParentsIn(Unseen(batch[..i], seenLinkIds) + [batch[i]]) ==
            ParentsIn(Unseen(batch[..i], seenLinkIds)) + if Parent(batch[i]) != "" then {Parent(batch[i])} else {}
  {
    assert batch[..i + 1][..i] == batch[..i];
    var kept := Unseen(batch[..i], seenLinkIds);
    assert (kept + [batch[i]])[..|kept|] == kept && kept + [] == kept;
  }

  /** An answer with nothing seen before is absorbed whole. */
  lemma {:induction false} AllUnseen(batch: seq<Link>, seenLinkIds: set<string>)
    requires UniqueIds(batch) && forall l :: l in batch ==> l.id !in seenLinkIds
    ensures Unseen(batch, seenLinkIds) == batch
  {
    hide LinkIds;
    if batch != [] {
      var before, link := batch[..|batch| - 1], batch[|batch| - 1];
      AllUnseen(before, seenLinkIds);
      LinkIdsMembers(before);
      assert link in batch && link.id !in LinkIds(before);
      assert before + [link] == batch;
    }
  }

  /**
   Waves of queries from `rootOrg` upward, at most `SUBGRAPH_MAX_WAVES`, each asked in
   chunks. Whatever the links, cyclic or not, the companies queried are exactly those
   within 47 steps, and every one of their live links is loaded once: the tenant's current
   rows about them, and no row of another tenant and no retired one.
   */
  method CollectRelevantOwnershipLinks(table: seq<Link>, tenantId: string, rootOrg: string)
    returns (links: seq<Link>, expansionWaves: nat, distinctOwnedOrgsVisited: nat)
    requires UniqueIds(table)
    ensures HoldsOwnersOf(links, Live(table, tenantId), QueriedOrgs(Live(table, tenantId), rootOrg))
    ensures distinctOwnedOrgsVisited == |QueriedOrgs(Live(table, tenantId), rootOrg)|
    ensures forall l :: l in links ==> l in table && l.tenantId == tenantId && l.isCurrent
    ensures AllDigits(rootOrg) && rootOrg != "" ==>
              forall l :: l in links <==>
                IsRow(table, tenantId, l) && Within(table, tenantId, rootOrg, 47, l.ownedOrganisationNumber)
    ensures 1 <= expansionWaves <= SUBGRAPH_MAX_WAVES
    ensures Waves(Live(table, tenantId), rootOrg, expansionWaves - 1) == QueriedOrgs(Live(table, tenantId), rootOrg)
  {
    hide *;
    var live := Live(table, tenantId);
    LiveUniqueIds(table, tenantId);
    NothingLoaded(live, rootOrg);
    links := [];
    var seenLinkIds: set<string> := {};
    var seenOwnedQueried: set<string> := {};
    var frontier := {rootOrg};
    expansionWaves := 0;
    var wave := 0;
    while wave < SUBGRAPH_MAX_WAVES && frontier != {}
      invariant 0 <= wave <= SUBGRAPH_MAX_WAVES && expansionWaves == wave
      invariant wave == 0 ==> seenOwnedQueried == {} && rootOrg in frontier
      invariant wave > 0 ==> seenOwnedQueried == Waves(live, rootOrg, wave - 1)
      invariant seenOwnedQueried + frontier == Waves(live, rootOrg, wave)
      invariant Queued(live, seenOwnedQueried) <= seenOwnedQueried + frontier
      invariant HoldsOwnersOf(links, live, seenOwnedQueried) && seenLinkIds == LinkIds(links)
    {
      expansionWaves := expansionWaves + 1;
      var toQuery := frontier - seenOwnedQueried;
      NextWave(live, rootOrg, wave, seenOwnedQueried, toQuery);
      frontier := {};
      if toQuery == {} {
        assert wave > 0;
        break;
      }
      links, seenLinkIds, frontier := LoadWave(live, toQuery, seenOwnedQueried, links, seenLinkIds);
      seenOwnedQueried := seenOwnedQueried + toQuery;
      wave := wave + 1;
    }
    AllQueried(live, rootOrg, wave - 1, seenOwnedQueried);
    distinctOwnedOrgsVisited := |seenOwnedQueried|;
    LoadedFromTable(links, table, tenantId, rootOrg);
    if AllDigits(rootOrg) && rootOrg != "" {
      LoadedExactly(links, table, tenantId, rootOrg);
    }
  }

  lemma LoadedFromTable(links: seq<Link>, table: seq<Link>, tenantId: string, root: string)
    requires HoldsOwnersOf(links, Live(table, tenantId), QueriedOrgs(Live(table, tenantId), root))
    ensures forall l :: l in links ==> l in table && l.tenantId == tenantId && l.isCurrent
  {
    hide QueriedOrgs;
    FilterMembers(LiveFor(tenantId), table);
  }

  /** The queried companies are those the tenant's rows lead up to. */
  lemma {:induction false} WavesAreWithin(table: seq<Link>, tenantId: string, root: string, n: nat, org: string)
    requires AllDigits(root) && root != ""
    ensures org in Waves(Live(table, tenantId), root, n) <==> org != "" && Within(table, tenantId, root, n, org)
  {
    hide Digits, Parent, HasParent, Live, AllDigits, LeadsUp;
    if org in Waves(Live(table, tenantId), root, n) {
      QueriedIsWithin(table, tenantId, root, n, org);
    } else if org != "" {
      if up :| |up| <= n && LeadsUp(table, tenantId, root, org, up) {
        ClimbIsQueried(table, tenantId, root, n, org, up);
      }
    }
  }

  lemma {:induction false} QueriedIsWithin(table: seq<Link>, tenantId: string, root: string, n: nat, org: string)
    requires AllDigits(root) && root != "" && org in Waves(Live(table, tenantId), root, n)
    ensures org != "" && Within(table, tenantId, root, n, org)
  {
    hide Digits, Parent, HasParent, Live, AllDigits, LeadsUp, Within, IsRow;
    var live := Live(table, tenantId);
    if n == 0 {
      RootWithin(table, tenantId, root);
    } else if org in Waves(live, root, n - 1) {
      QueriedIsWithin(table, tenantId, root, n - 1, org);
      WithinMore(table, tenantId, root, n - 1, org);
    } else {
      var l :| l in live && l.ownedOrganisationNumber in Waves(live, root, n - 1) && Parent(l) != ""
               && Parent(l) == org;
      QueriedIsWithin(table, tenantId, root, n - 1, l.ownedOrganisationNumber);
      WavesAreDigits(live, root, n - 1);
      LiveIsRow(table, tenantId, l);
      HasThatParent(l);
      StepWithin(table, tenantId, root, n - 1, l, org);
    }
  }

  lemma HasThatParent(l: Link)
    requires Parent(l) != ""
    ensures OwnerIs(l, Parent(l))
  {
  }

  lemma RootWithin(table: seq<Link>, tenantId: string, root: string)
    ensures Within(table, tenantId, root, 0, root)
  {
    assert LeadsUp(table, tenantId, root, root, []);
  }

  lemma WithinMore(table: seq<Link>, tenantId: string, root: string, n: nat, org: string)
    ensures Within(table, tenantId, root, n, org) ==> Within(table, tenantId, root, n + 1, org)
  {
  }

  lemma StepWithin(table: seq<Link>, tenantId: string, root: string, n: nat, l: Link, org: string)
    requires Within(table, tenantId, root, n, l.ownedOrganisationNumber)
    requires IsRow(table, tenantId, l) && OwnerIs(l, org)
    ensures Within(table, tenantId, root, n + 1, org)
  {
    hide IsRow, OwnerIs;
    var up :| |up| <= n && LeadsUp(table, tenantId, root, l.ownedOrganisationNumber, up);
    assert (up + [l])[..|up|] == up;
    assert LeadsUp(table, tenantId, root, org, up + [l]);
  }

  lemma {:induction false} ClimbIsQueried(table: seq<Link>, tenantId: string, root: string, n: nat, org: string,
                                          up: seq<Link>)
    requires |up| <= n && LeadsUp(table, tenantId, root, org, up) && org != "" && root != ""
    ensures org in Waves(Live(table, tenantId), root, n)
  {
    hide Digits, Parent, HasParent, Live, IsRow, OwnerIs;
    if up == [] {
      RootQueried(Live(table, tenantId), root, n);
    } else {
      var l := up[|up| - 1];
      LiveIsRow(table, tenantId, l);
      OwnerIsParent(l, org);
      ClimbIsQueried(table, tenantId, root, n - 1, l.ownedOrganisationNumber, up[..|up| - 1]);
    }
  }

  lemma {:induction false} RootQueried(live: seq<Link>, root: string, n: nat)
    ensures root in Waves(live, root, n)
  {
    if n > 0 {
      RootQueried(live, root, n - 1);
    }
  }

  lemma LiveIsRow(table: seq<Link>, tenantId: string, l: Link)
    ensures l in Live(table, tenantId) && l.ownedOrganisationNumber != "" && AllDigits(l.ownedOrganisationNumber)
       <==> IsRow(table, tenantId, l)
    ensures IsRow(table, tenantId, l) ==> l.ownedOrganisationNumber != ""
  {
    FilterMember(LiveFor(tenantId), table, l);
  }

  /** Loaded are exactly the tenant's current rows about the companies within 47 steps. */
  lemma LoadedExactly(links: seq<Link>, table: seq<Link>, tenantId: string, root: string)
    requires AllDigits(root) && root != ""
    requires HoldsOwnersOf(links, Live(table, tenantId), QueriedOrgs(Live(table, tenantId), root))
    ensures forall l :: l in links <==>
              IsRow(table, tenantId, l) && Within(table, tenantId, root, 47, l.ownedOrganisationNumber)
  {
    hide Live, IsRow, Within, Waves, AllDigits;
    var live := Live(table, tenantId);
    forall l ensures l in links <==>
                       IsRow(table, tenantId, l) && Within(table, tenantId, root, 47, l.ownedOrganisationNumber) {
      WavesAreWithin(table, tenantId, root, 47, l.ownedOrganisationNumber);
      WavesAreDigits(live, root, 47);
      LiveIsRow(table, tenantId, l);
      var here := StoredAs(l.ownedOrganisationNumber);
      FilterMember(here, links, l);
      FilterMember(here, live, l);
    }
  }

  lemma LiveUniqueIds(table: seq<Link>, tenantId: string)
    requires UniqueIds(table)
    ensures UniqueIds(Live(table, tenantId))
  {
    FilterUniqueIds(LiveFor(tenantId), table);
  }

  lemma NothingLoaded(live: seq<Link>, root: string)
    ensures HoldsOwnersOf([], live, {}) && LinkIds([]) == {} && Queued(live, {}) == {}
    ensures Waves(live, root, 0) == {root} && SUBGRAPH_MAX_WAVES > 0
  {
  }

  lemma ChunkMoves(asked: set<string>, todo: set<string>, chunk: set<string>, done: set<string>)
    requires asked !! todo && asked + todo !! done && chunk <= todo
    ensures (asked + chunk) + (todo - chunk) == asked + todo && asked + chunk !! todo - chunk
    ensures done + asked + chunk == done + (asked + chunk) && chunk !! done + asked
  {
  }

  /** One wave: ask for the owners of `toQuery`, at most `IN_QUERY_CHUNK` companies a time, in any order. */
  method LoadWave(live: seq<Link>, toQuery: set<string>, ghost done: set<string>,
                  collected: seq<Link>, seenLinkIds: set<string>)
    returns (collected': seq<Link>, seenLinkIds': set<string>, frontier: set<string>)
    requires UniqueIds(live) && toQuery !! done
    requires HoldsOwnersOf(collected, live, done) && seenLinkIds == LinkIds(collected)
    ensures HoldsOwnersOf(collected', live, done + toQuery) && seenLinkIds' == LinkIds(collected')
    ensures frontier == Queued(live, toQuery)
  {
    hide *;
    NothingLoaded(live, "");
    collected', seenLinkIds', frontier := collected, seenLinkIds, {};
    var todo := toQuery;
    ghost var asked: set<string> := {};
    assert done + asked == done;
    while todo != {}
      invariant asked + todo == toQuery && asked !! todo
      invariant HoldsOwnersOf(collected', live, done + asked) && seenLinkIds' == LinkIds(collected')
      invariant frontier == Queued(live, asked)
      decreases |todo|
    {
      var chunk := NextChunk(todo);
      ChunkMoves(asked, todo, chunk, done);
      var batch := Query(live, chunk);
      AnswerIsNew(collected', live, done + asked, chunk);
      LoadedChunk(collected', live, done + asked, chunk);
      LinkIdsConcat(collected', batch);
      QueuedByAnswer(live, chunk);
      QueuedUnion(live, asked, chunk);
      AllUnseen(batch, seenLinkIds');
      collected', seenLinkIds', frontier := AbsorbBatch(batch, collected', seenLinkIds', frontier);
      asked, todo := asked + chunk, todo - chunk;
    }
    assert asked == toQuery;
  }

  lemma ChunksHoldSome()
    ensures IN_QUERY_CHUNK > 0
  {
  }

  /** The next companies to put in one query: as many as are left, but at most `IN_QUERY_CHUNK`. */
  method NextChunk(todo: set<string>) returns (chunk: set<string>)
    requires todo != {}
    ensures chunk <= todo && chunk != {} && |chunk| <= IN_QUERY_CHUNK
    ensures chunk == todo || |chunk| == IN_QUERY_CHUNK
    ensures |todo - chunk| < |todo|
  {
    hide *;
    ChunksHoldSome();
    chunk := {};
    var rest := todo;
    assert Split(todo, chunk, rest) by { NothingMoved(todo); }
    while rest != {} && |chunk| < IN_QUERY_CHUNK
      invariant Split(todo, chunk, rest) && |chunk| <= IN_QUERY_CHUNK
      invariant |chunk| + |rest| == |todo|
      invariant rest == todo || |chunk| > 0
      decreases |rest|
    {
      var org :| org in rest;
      OneMoved(todo, chunk, rest, org);
      chunk, rest := chunk + {org}, rest - {org};
    }
    WhatIsLeft(todo, chunk, rest);
  }

  ghost predicate Split(todo: set<string>, chunk: set<string>, rest: set<string>) {
    chunk + rest == todo && chunk !! rest
  }

  lemma NothingMoved(todo: set<string>)
    ensures Split(todo, {}, todo)
  {
  }

  lemma OneMoved(todo: set<string>, chunk: set<string>, rest: set<string>, org: string)
    requires Split(todo, chunk, rest) && org in rest
    ensures Split(todo, chunk + {org}, rest - {org})
    ensures |chunk + {org}| == |chunk| + 1 && |rest - {org}| == |rest| - 1
  {
  }

  lemma WhatIsLeft(todo: set<string>, chunk: set<string>, rest: set<string>)
    requires Split(todo, chunk, rest)
    ensures chunk <= todo && todo - chunk == rest && (rest == {} ==> chunk == todo)
  {
  }

  predicate IsCanonical(l: Link) {
    Digits(l.ownedOrganisationNumber) == l.ownedOrganisationNumber
  }

  /** The links whose owned number is stored as digits only, as the query looks for it. */
  function Canonical(links: seq<Link>): seq<Link> {
    Filter(IsCanonical, links)
  }

  lemma {:induction false} WavesAreDigits(live: seq<Link>, root: string, n: nat)
    requires AllDigits(root)
    ensures forall org :: org in Waves(live, root, n) ==> AllDigits(org)
  {
    if n > 0 {
      WavesAreDigits(live, root, n - 1);
    }
  }

  lemma AboveIsQueued(live: seq<Link>, near: set<string>, asked: set<string>)
    requires forall org :: org in near ==> org == "" || org in asked
    ensures forall org :: org in Above(Canonical(live), near) ==> org == "" || org in Queued(live, asked)
  {
    FilterMembers(IsCanonical, live);
    forall org | org in Above(Canonical(live), near)
      ensures org == "" || org in Queued(live, asked)
    {
      var l :| l in Canonical(live) && HasParent(l) && Digits(l.ownedOrganisationNumber) != "" &&
               Digits(l.ownedOrganisationNumber) in near && Parent(l) == org;
    }
  }

  lemma {:induction false} WavesCoverReach(live: seq<Link>, root: string, n: nat)
    requires AllDigits(root)
    ensures forall org :: org in Reach(Canonical(live), root, n) ==> org == "" || org in Waves(live, root, n)
  {
    hide Above, Queued, Canonical;
    if n > 0 {
      WavesCoverReach(live, root, n - 1);
      AboveIsQueued(live, Reach(Canonical(live), root, n - 1), Waves(live, root, n - 1));
    }
  }

  /** Among links stored canonically, a company's owners are the rows stored under its number. */
  lemma OwnersStoredAs(links: seq<Link>, org: string)
    requires org != "" && forall l :: l in links ==> IsCanonical(l)
    ensures Owners(links, org) == Filter(StoredAs(org), links)
  {
    FilterAgree(OwnedBy(org), StoredAs(org), links);
  }

  lemma CanonicalStoredAs(live: seq<Link>, org: string)
    requires org != "" && AllDigits(org)
    ensures Owners(Canonical(live), org) == Filter(StoredAs(org), live)
  {
    FilterMembers(IsCanonical, live);
    OwnersStoredAs(Canonical(live), org);
    FilterWithin(StoredAs(org), IsCanonical, live);
  }

  /**
   Loading only what is reachable loses nothing the engine can look at: for every
   company within 47 steps the loaded links list the same owners, in the same order,
   as all the tenant's canonically stored links.
   */
  lemma LoadedLinksSuffice(links: seq<Link>, live: seq<Link>, root: string)
    requires AllDigits(root) && HoldsOwnersOf(links, live, QueriedOrgs(live, root))
    ensures SameOwners(Canonical(live), links, root, SUBGRAPH_MAX_WAVES - 1)
  {
    var n: nat := SUBGRAPH_MAX_WAVES - 1;
    WavesAreDigits(live, root, n);
    WavesCoverReach(live, root, n);
    forall org | org in Reach(Canonical(live), root, n)
      ensures Owners(Canonical(live), org) == Owners(links, org)
    {
      if org == "" {
        OwnersOfNobody(links);
        OwnersOfNobody(Canonical(live));
      } else {
        CanonicalStoredAs(live, org);
        OwnersStoredAs(links, org);
      }
    }
  }

  /** A live link stored with punctuation in its owned number, into a company within `n` steps. */
  ghost predicate HasPunctuatedLink(live: seq<Link>, root: string, n: nat) {
    exists l :: l in live && !IsCanonical(l) && Digits(l.ownedOrganisationNumber) != "" &&
                Digits(l.ownedOrganisationNumber) in Reach(Canonical(live), root, n)
  }

  /**
   Exactly when the canonical links are all the live links that matter: a link stored
   with punctuation ("556000-1234") is grouped under its digits but never queried for.
   */
  lemma CanonicalIsEnough(live: seq<Link>, root: string, n: nat)
    ensures SameOwners(Canonical(live), live, root, n) <==> !HasPunctuatedLink(live, root, n)
  {
    FilterMembers(IsCanonical, live);
    if !HasPunctuatedLink(live, root, n) {
      forall org | org in Reach(Canonical(live), root, n)
        ensures Owners(Canonical(live), org) == Owners(live, org)
      {
        if org == "" {
          OwnersOfNobody(live);
          OwnersOfNobody(Canonical(live));
        } else {
          FilterWithin(OwnedBy(org), IsCanonical, live);
        }
      }
    } else {
      var l :| l in live && !IsCanonical(l) && Digits(l.ownedOrganisationNumber) != "" &&
               Digits(l.ownedOrganisationNumber) in Reach(Canonical(live), root, n);
      var org := Digits(l.ownedOrganisationNumber);
      OwnersMember(live, org, l);
      OwnersMember(Canonical(live), org, l);
    }
  }
}
