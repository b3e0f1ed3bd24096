/**
 * The version limit under interleavings. The service checks it before it stores anything, against
 * the latest version it has loaded, and that is the number that the repository adds one to.
 */
module VersionLimit {
  import opened RegistryModels
  import opened CapsuleRepository
  import opened Publishing
  import opened CapsuleHistories

  function Competitors(s: System, id: string): set<nat> {
    set who | who in s.publishers && s.publishers[who].request.id == id
  }

  function Latest(s: System, id: string): nat
    requires id in s.db.capsules
  {
    s.db.capsules[id].latestVersion
  }

  lemma LimitStays(s: System, a: Action)
    ensures Step(s, a).limit == s.limit
  {
  }

  /** Every publisher in flight has loaded a version below the limit. */
  ghost predicate LoadedBelow(s: System) {
    forall who :: who in s.publishers && InFlight(s.publishers[who].phase) ==> s.publishers[who].phase.latest < s.limit
  }

  /** A publisher carries the number it has loaded to its commit. */
  lemma NumberIsCarried(s: System, who: nat)
    requires who in s.publishers && !s.publishers[who].phase.Arrived? && !s.publishers[who].phase.Ready?
    ensures var s' := AdvanceOne(s, who);
      who in s'.publishers && (InFlight(s'.publishers[who].phase) ==>
        InFlight(s.publishers[who].phase) && s'.publishers[who].phase.latest == s.publishers[who].phase.latest)
  {
    var p, p' := s.publishers[who].phase, AdvanceOne(s, who).publishers[who].phase;
    match p
    case Checked(latest, status) => assert p' == Stored(latest, status) || p'.Refused?;
    case Stored(latest, status) => assert p' == KeyUnknown(latest, status) || p'.KeyKnown?;
    case KeyUnknown(latest, _) => assert p' == Read(latest) || p'.Refused?;
    case Read(latest) => assert p' == HashClear(latest) || p'.Refused?;
    case HashClear(latest) => assert p'.Ready? && p'.latest == latest;
    case _ =>
  }

  lemma LoadedIsBelow(s: System, who: nat)
    requires who in s.publishers && s.publishers[who].phase.Arrived?
    ensures var s' := AdvanceOne(s, who);
      who in s'.publishers && (InFlight(s'.publishers[who].phase) ==> s'.publishers[who].phase.latest < s.limit)
  {
  }

  lemma CommitEnds(s: System, who: nat)
    requires who in s.publishers && s.publishers[who].phase.Ready?
    ensures var s' := AdvanceOne(s, who);
      && who in s'.publishers && Over(s'.publishers[who].phase)
      && s'.publishers == s.publishers[who := Publisher(s.publishers[who].request, s'.publishers[who].phase)]
  {
    CommitKeepsRequests(s, who);
  }

  lemma AdvanceKeepsLoaded(s: System, who: nat)
    requires LoadedBelow(s) && who in s.publishers
    ensures LoadedBelow(AdvanceOne(s, who))
  {
    LimitStays(s, Advance(who));
    if s.publishers[who].phase.Ready? {
      CommitEnds(s, who);
    } else {
      NoCommit(s, who);
      if s.publishers[who].phase.Arrived? {
        LoadedIsBelow(s, who);
      } else {
        NumberIsCarried(s, who);
      }
    }
  }

  lemma StepKeepsLoaded(s: System, a: Action)
    requires LoadedBelow(s)
    ensures LoadedBelow(Step(s, a))
  {
    if a.Advance? && a.who in s.publishers {
      AdvanceKeepsLoaded(s, a.who);
    } else {
      LimitStays(s, a);
    }
  }

  /** Neither the capsule nor any version under its id goes past `most`. */
  ghost predicate AtMost(db: Db, id: string, most: int) {
    && (id in db.capsules ==> db.capsules[id].latestVersion <= most)
    && (forall n: nat :: (id, n) in db.versions ==> n <= most)
  }

  lemma CommitStaysWithin(s: System, who: nat, id: string, most: int)
    requires who in s.publishers && s.publishers[who].phase.Ready? && AtMost(s.db, id, most) && s.publishers[who].phase.latest < most
    ensures AtMost(AdvanceOne(s, who).db, id, most)
  {
    var (r, p) := (s.publishers[who].request, s.publishers[who].phase);
    PublishRowsApply(s.db, r, p.latest + 1, p.newBlob);
  }

  lemma StepStaysWithin(s: System, a: Action, id: string, most: int)
    requires LoadedBelow(s) && AtMost(s.db, id, most) && most >= s.limit && most >= 1
    ensures AtMost(Step(s, a).db, id, most)
  {
    match a
    case Advance(who) =>
      if who in s.publishers {
        if s.publishers[who].phase.Ready? {
          CommitStaysWithin(s, who, id, most);
        } else {
          NoCommit(s, who);
        }
      }
    case ChangeStatus(changed, status, actor, etag) => StatusStep(s, changed, status, actor, etag);
    case CreateNew(c) => CreateEffect(s, c);
    case Delete(gone, actor) => DeleteStep(s, gone, actor);
  }

  lemma {:induction false} RunStaysWithin(s: System, schedule: seq<Action>, id: string, most: int)
    requires LoadedBelow(s) && AtMost(s.db, id, most) && most >= s.limit && most >= 1
    ensures LoadedBelow(Run(s, schedule)) && Run(s, schedule).limit == s.limit && AtMost(Run(s, schedule).db, id, most)
  {
    if schedule != [] {
      var mid, last := Run(s, schedule[..|schedule| - 1]), schedule[|schedule| - 1];
      RunStaysWithin(s, schedule[..|schedule| - 1], id, most);
      StepKeepsLoaded(mid, last);
      StepStaysWithin(mid, last, id, most);
      LimitStays(mid, last);
    }
  }

  /** The version a capsule starts the run with; one that is created in the run starts with version 1. */
  function Start(s: System, id: string): nat {
    if id in s.db.capsules then Latest(s, id) else 1
  }

  lemma StartsWithin(s: System, id: string)
    requires Initial(s)
    ensures LoadedBelow(s) && Start(s, id) >= 1 && AtMost(s.db, id, Start(s, id))
  {
  }

  /**
   * The limit holds in every interleaving at all, creates of any id included: no capsule, and no
   * version under its id, goes past the limit, unless the capsule started beyond it; and then it
   * gets no further version.
   */
  lemma LimitHolds(s: System, schedule: seq<Action>, id: string)
    requires Initial(s)
    ensures AtMost(Run(s, schedule).db, id, if Start(s, id) > s.limit then Start(s, id) else s.limit)
  {
    StartsWithin(s, id);
    RunStaysWithin(s, schedule, id, if Start(s, id) > s.limit then Start(s, id) else s.limit);
  }

  /** What publishers have made of the capsule lies past where it started and within the limit. */
  ghost predicate MadeWithin(s: System, id: string, start: nat) {
    && (id in s.db.capsules ==> Latest(s, id) >= start)
    && (forall n: nat :: (id, n) in s.ledger ==> start < n <= s.limit)
  }

  /** A commit that goes through makes the number after the one that was loaded. */
  lemma LockHeld(s: System, who: nat)
    requires who in s.publishers && s.publishers[who].phase.Ready? && InOrderAt(s, s.publishers[who].request.id)
    requires var r := s.publishers[who].request; r.id in s.db.capsules && AdvanceOne(s, who) == AfterCommit(s, who)
    ensures s.db.capsules[s.publishers[who].request.id].latestVersion == s.publishers[who].phase.latest
  {
    var (r, p) := (s.publishers[who].request, s.publishers[who].phase);
    CommitSucceedsIff(s.db, r, p);
    assert AfterCommit(s, who).publishers[who].phase.Committed?;
  }

  lemma CommitMadeWithin(s: System, who: nat, start: nat)
    requires who in s.publishers && InOrderAt(s, s.publishers[who].request.id) && s.publishers[who].phase.Ready? && LoadedBelow(s)
    requires MadeWithin(s, s.publishers[who].request.id, start)
    ensures MadeWithin(AdvanceOne(s, who), s.publishers[who].request.id, start)
  {
    var success := CommitStep(s, who);
    if success {
      LockHeld(s, who);
    }
  }

  lemma OnlyCommitsMake(s: System, a: Action)
    requires a.Advance? && a.who in s.publishers ==> !s.publishers[a.who].phase.Ready?
    ensures Step(s, a).ledger == s.ledger
  {
    if a.Advance? && a.who in s.publishers {
      NoCommit(s, a.who);
    }
  }

  lemma StepMadeWithin(s: System, a: Action, id: string, start: nat)
    requires InOrderAt(s, id) && LoadedBelow(s) && MadeWithin(s, id, start) && (a.CreateNew? ==> a.request.Id() != id)
    ensures MadeWithin(Step(s, a), id, start)
  {
    LimitStays(s, a);
    StepKeepsOrder(s, a, id);
    if a.Advance? && a.who in s.publishers && s.publishers[a.who].phase.Ready? {
      if s.publishers[a.who].request.id == id {
        CommitMadeWithin(s, a.who, start);
      } else {
        CommitElsewhere(s, a.who, id);
      }
    } else {
      OnlyCommitsMake(s, a);
    }
  }

  lemma {:induction false} RunMadeWithin(s: System, schedule: seq<Action>, id: string, start: nat)
    requires InOrderAt(s, id) && LoadedBelow(s) && MadeWithin(s, id, start) && NeverCreated(schedule, id)
    ensures MadeWithin(Run(s, schedule), id, start) && LoadedBelow(Run(s, schedule)) && Run(s, schedule).limit == s.limit
  {
    if schedule != [] {
      var init, last := schedule[..|schedule| - 1], schedule[|schedule| - 1];
      RunMadeWithin(s, init, id, start);
      RunKeepsOrder(s, init, id);
      StepMadeWithin(Run(s, init), last, id, start);
      StepKeepsLoaded(Run(s, init), last);
      LimitStays(Run(s, init), last);
    }
  }

  lemma BothInLedger(end: System, a: nat, b: nat, id: string, start: nat)
    requires a in end.publishers && b in end.publishers && a != b && SuccessesInLedger(end, id) && MadeWithin(end, id, start)
    requires end.publishers[a].request.id == id && end.publishers[b].request.id == id
    requires Succeeded(end.publishers[a].phase) && Succeeded(end.publishers[b].phase)
    ensures start + 2 <= end.limit
  {
    var m, n := end.publishers[a].phase.number, end.publishers[b].phase.number;
    assert end.ledger[(id, m)].0 == a && end.ledger[(id, n)].0 == b;
    assert m != n;
  }

  /** Two publishers of one capsule that both make a version, while no create takes its id, had room for two when the run started, even if the capsule is deleted on the way. */
  lemma TwoNeedRoom(s: System, schedule: seq<Action>, a: nat, b: nat)
    requires Initial(s) && a != b
    requires var end := Run(s, schedule);
      && a in end.publishers && b in end.publishers && Succeeded(end.publishers[a].phase) && Succeeded(end.publishers[b].phase)
      && end.publishers[a].request.id == end.publishers[b].request.id && end.publishers[a].request.id in s.db.capsules
      && NeverCreated(schedule, end.publishers[a].request.id)
    ensures Latest(s, Run(s, schedule).publishers[a].request.id) + 2 <= s.limit
  {
    var end := Run(s, schedule);
    var id := end.publishers[a].request.id;
    StartsWithin(s, id);
    InitialInOrder(s, id);
    RunKeepsOrder(s, schedule, id);
    RunMadeWithin(s, schedule, id, Latest(s, id));
    BothInLedger(end, a, b, id, Latest(s, id));
  }

  lemma PublishersStay(s: System, a: Action)
    ensures Step(s, a).publishers.Keys == s.publishers.Keys
  {
    if a.Advance? && a.who in s.publishers {
      if s.publishers[a.who].phase.Ready? {
        CommitKeepsRequests(s, a.who);
      } else {
        NoCommit(s, a.who);
      }
    }
  }

  lemma {:induction false} CompetitorsStay(s: System, schedule: seq<Action>, id: string)
    ensures Run(s, schedule).limit == s.limit
    ensures Competitors(Run(s, schedule), id) == Competitors(s, id)
  {
    if schedule != [] {
      var mid, last := Run(s, schedule[..|schedule| - 1]), schedule[|schedule| - 1];
      CompetitorsStay(s, schedule[..|schedule| - 1], id);
      LimitStays(mid, last);
      PublishersStay(mid, last);
      forall who | who in mid.publishers
        ensures who in Step(mid, last).publishers && Step(mid, last).publishers[who].request == mid.publishers[who].request
      {
        StepKeepsRequests(mid, last, who);
      }
    }
  }

  /** The version was made by a publisher of the capsule, with that publisher's content. */
  ghost predicate MadeByCompetitor(s: System, id: string, n: nat) {
    && (id, n) in s.ledger && s.ledger[(id, n)].0 in Competitors(s, id)
    && s.ledger[(id, n)].1 == s.publishers[s.ledger[(id, n)].0].request.hash
  }

  ghost predicate NewOnesMade(s: System, id: string, from: nat) {
    id in s.db.capsules ==> forall n: nat :: from < n <= Latest(s, id) ==> MadeByCompetitor(s, id, n)
  }

  /** The step keeps the entries of the capsule in the ledger, and who asked for what. */
  ghost predicate LedgerGrows(s: System, s': System, id: string) {
    && (forall n: nat :: (id, n) in s.ledger ==> (id, n) in s'.ledger && s'.ledger[(id, n)] == s.ledger[(id, n)])
    && (forall who :: who in s.publishers ==> who in s'.publishers && s'.publishers[who].request == s.publishers[who].request)
  }

  lemma StillMade(s: System, s': System, id: string, n: nat)
    requires LedgerGrows(s, s', id) && MadeByCompetitor(s, id, n)
    ensures MadeByCompetitor(s', id, n)
  {
  }

  lemma AfterCommitIsMade(s: System, who: nat)
    requires who in s.publishers && CanCommit(s.db, s.publishers[who].request)
    requires var id := s.publishers[who].request.id; NumberedAt(s.db, id) && LedgerFits(s.db, s.ledger, id)
    ensures var (s', id) := (AfterCommit(s, who), s.publishers[who].request.id);
      && LedgerGrows(s, s', id)
      && Latest(s', id) == Latest(s, id) + 1 && MadeByCompetitor(s', id, Latest(s', id))
  {
    NewEntryFits(s.db, s.ledger, s.publishers[who].request, who);
  }

  lemma CommitIsMade(s: System, who: nat)
    requires who in s.publishers && InOrderAt(s, s.publishers[who].request.id) && s.publishers[who].phase.Ready?
    ensures var (s', id) := (AdvanceOne(s, who), s.publishers[who].request.id);
      && LedgerGrows(s, s', id)
      && (id in s'.db.capsules ==> id in s.db.capsules && (Latest(s', id) == Latest(s, id) || (Latest(s', id) == Latest(s, id) + 1 && MadeByCompetitor(s', id, Latest(s', id)))))
  {
    var success := CommitStep(s, who);
    if success {
      AfterCommitIsMade(s, who);
    }
  }

  lemma NoCommitMade(s: System, a: Action, id: string)
    requires a.Advance? ==> a.who !in s.publishers || (s.publishers[a.who].phase.Ready? ==> s.publishers[a.who].request.id != id)
    requires InOrderAt(s, id)
    ensures LedgerGrows(s, Step(s, a), id)
  {
    forall who | who in s.publishers
      ensures who in Step(s, a).publishers && Step(s, a).publishers[who].request == s.publishers[who].request
    {
      StepKeepsRequests(s, a, who);
    }
    if a.Advance? && a.who in s.publishers {
      if s.publishers[a.who].phase.Ready? {
        CommitElsewhere(s, a.who, id);
      } else {
        NoCommit(s, a.who);
      }
    }
  }

  lemma NoCommitNoVersion(s: System, a: Action, id: string)
    requires a.Advance? ==> a.who !in s.publishers || (s.publishers[a.who].phase.Ready? ==> s.publishers[a.who].request.id != id)
    requires InOrderAt(s, id) && (a.CreateNew? ==> a.request.Id() != id)
    ensures id in Step(s, a).db.capsules ==> id in s.db.capsules && Latest(Step(s, a), id) == Latest(s, id)
  {
    match a
    case Advance(who) =>
      if who in s.publishers {
        if s.publishers[who].phase.Ready? {
          CommitElsewhere(s, who, id);
        } else {
          NoCommit(s, who);
        }
      }
    case ChangeStatus(changed, status, actor, etag) => StatusStep(s, changed, status, actor, etag);
    case CreateNew(c) => CreateEffect(s, c);
    case Delete(gone, actor) => DeleteStep(s, gone, actor);
  }

  lemma StepKeepsMade(s: System, a: Action, id: string, from: nat)
    requires InOrderAt(s, id) && NewOnesMade(s, id, from) && (a.CreateNew? ==> a.request.Id() != id)
    ensures NewOnesMade(Step(s, a), id, from)
  {
    var s' := Step(s, a);
    if a.Advance? && a.who in s.publishers && s.publishers[a.who].phase.Ready? && s.publishers[a.who].request.id == id {
      CommitIsMade(s, a.who);
    } else {
      NoCommitMade(s, a, id);
      NoCommitNoVersion(s, a, id);
    }
    if id in s'.db.capsules {
      forall n: nat | from < n <= Latest(s', id)
        ensures MadeByCompetitor(s', id, n)
      {
        if n <= Latest(s, id) {
          StillMade(s, s', id, n);
        }
      }
    }
  }

  lemma {:induction false} RunKeepsMade(s: System, schedule: seq<Action>, id: string, from: nat)
    requires InOrderAt(s, id) && NewOnesMade(s, id, from) && NeverCreated(schedule, id)
    ensures NewOnesMade(Run(s, schedule), id, from)
  {
    if schedule != [] {
      var init := schedule[..|schedule| - 1];
      RunKeepsOrder(s, init, id);
      RunKeepsMade(s, init, id, from);
      StepKeepsMade(Run(s, init), schedule[|schedule| - 1], id, from);
    }
  }

  /** Publishers of one content make at most one version between them. */
  lemma OneContentOneVersion(s: System, schedule: seq<Action>, id: string, hash: string)
    requires Initial(s) && NeverCreated(schedule, id) && id in s.db.capsules && id in Run(s, schedule).db.capsules
    requires forall who :: who in Competitors(s, id) ==> s.publishers[who].request.hash == hash
    ensures Latest(Run(s, schedule), id) <= Latest(s, id) + 1
  {
    var end, from := Run(s, schedule), Latest(s, id);
    InitialInOrder(s, id);
    RunKeepsOrder(s, schedule, id);
    RunKeepsMade(s, schedule, id, from);
    CompetitorsStay(s, schedule, id);
    if Latest(end, id) > from + 1 {
      assert MadeByCompetitor(end, id, from + 1) && MadeByCompetitor(end, id, from + 2);
      RunKeepsRequests(s, schedule, end.ledger[(id, from + 1)].0);
      RunKeepsRequests(s, schedule, end.ledger[(id, from + 2)].0);
    }
  }
}
