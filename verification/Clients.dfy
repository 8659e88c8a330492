/** The web shell's reference-counted pool of upstream clients, over any type `E` of endpoint identities and `C` of
    clients. Each operation runs under one lock, so a step is a whole update, borrow or return. */
module Clients {

  /** `requests` counts per created client what the pool counts, `closed` how often it was closed, and `borrows`
      holds the borrows that are open outside. */
  datatype Pool<!E(==), !C(==)> = Pool(
    current: map<E, C>, retired: set<C>, requests: map<C, nat>, closed: map<C, nat>, borrows: multiset<C>)

  function Empty<E(==), C(==)>(): Pool<E, C> {
    Pool(map[], {}, map[], map[], multiset{})
  }

  function Close<E(==), C(==)>(p: Pool<E, C>, idle: set<C>): Pool<E, C> {
    p.(retired := p.retired - idle, closed := map c | c in p.closed :: p.closed[c] + if c in idle then 1 else 0)
  }

  function Idle<E(==), C(==)>(p: Pool<E, C>): set<C> {
    set c | c in p.retired && c in p.requests && p.requests[c] == 0
  }

  /** Withdrawn endpoints retire their client. */
  function Retire<E(==), C(==)>(p: Pool<E, C>, published: seq<E>): Pool<E, C> {
    p.(current := map e | e in p.current && e in published :: p.current[e],
       retired := p.retired + set e | e in p.current && e !in published :: p.current[e])
  }

  /** An update retires and then closes what is idle. */
  function Update<E(==), C(==)>(p: Pool<E, C>, published: seq<E>): Pool<E, C> {
    var q := Retire(p, published);
    Close(q, Idle(q))
  }

  /** The client a borrow yields: the current one, or `made`. */
  function Chosen<E(==), C(==)>(p: Pool<E, C>, e: E, made: C): C {
    if e in p.current then p.current[e] else made
  }

  function Admit<E(==), C(==)>(p: Pool<E, C>, e: E, made: C): Pool<E, C> {
    if e in p.current then p
    else p.(current := p.current[e := made], requests := p.requests[made := 0], closed := p.closed[made := 0])
  }

  function Lend<E(==), C(==)>(p: Pool<E, C>, c: C): Pool<E, C> {
    p.(requests := p.requests[c := (if c in p.requests then p.requests[c] else 0) + 1],
       borrows := p.borrows + multiset{c})
  }

  function Borrow<E(==), C(==)>(p: Pool<E, C>, e: E, made: C): Pool<E, C> {
    Lend(Admit(p, e, made), Chosen(p, e, made))
  }

  function TakeBack<E(==), C(==)>(p: Pool<E, C>, c: C): Pool<E, C> {
    p.(requests := p.requests[c := if c in p.requests && p.requests[c] > 0 then p.requests[c] - 1 else 0],
       borrows := p.borrows - multiset{c})
  }

  /** The last return of a retired client closes it. */
  function GiveBack<E(==), C(==)>(p: Pool<E, C>, c: C): Pool<E, C> {
    var q := TakeBack(p, c);
    if c in q.retired && q.requests[c] == 0 then Close(q, {c}) else q
  }

  /** An update whose closing fails has closed only `done` of the idle clients; a return whose closing fails has
      uncounted the client and left it retired. */
  datatype Step<E, C> =
    | Publish(endpoints: seq<E>)
    | Open(endpoint: E, made: C)
    | Return(client: C)
    | PublishFails(endpoints: seq<E>, done: set<C>)
    | ReturnFails(client: C)

  /** A new client is new, and only a borrow that is open is returned. */
  predicate Enabled<E(==), C(==)>(p: Pool<E, C>, s: Step<E, C>) {
    match s
    case Publish(_) => true
    case Open(_, made) => made !in p.requests
    case Return(c) => c in p.borrows
    case PublishFails(endpoints, done) => done <= Idle(Retire(p, endpoints))
    case ReturnFails(c) => c in p.borrows
  }

  function Next<E(==), C(==)>(p: Pool<E, C>, s: Step<E, C>): Pool<E, C> {
    match s
    case Publish(endpoints) => Update(p, endpoints)
    case Open(e, made) => Borrow(p, e, made)
    case Return(c) => GiveBack(p, c)
    case PublishFails(endpoints, done) => Close(Retire(p, endpoints), done)
    case ReturnFails(c) => TakeBack(p, c)
  }

  /** Exactly one of current, retired and closed. */
  predicate Placed<E(==), C(==)>(p: Pool<E, C>, c: C)
    requires c in p.closed
  {
    var current, retired, closed := c in p.current.Values, c in p.retired, p.closed[c] > 0;
    (current || retired || closed) && !(current && retired) && !(current && closed) && !(retired && closed)
  }

  /** Where the clients are. */
  predicate Sited<E(==), C(==)>(p: Pool<E, C>) {
    && p.current.Values <= p.closed.Keys && p.retired <= p.closed.Keys
    && (forall e, f :: e in p.current && f in p.current && p.current[e] == p.current[f] ==> e == f)
    && (forall c :: c in p.closed ==> Placed(p, c) && p.closed[c] <= 1)
  }

  /** What the counts say. */
  predicate Counted<E(==), C(==)>(p: Pool<E, C>) {
    && p.requests.Keys == p.closed.Keys
    && (forall c :: c in p.requests ==> p.requests[c] == p.borrows[c])
    && (forall c :: c in p.borrows ==> c in p.closed && p.closed[c] == 0)
  }

  predicate NoneIdle<E(==), C(==)>(p: Pool<E, C>) {
    forall c :: c in p.retired ==> c in p.requests && p.requests[c] > 0
  }

  /** What even a failing close keeps. */
  predicate Kept<E(==), C(==)>(p: Pool<E, C>) {
    Sited(p) && Counted(p)
  }

  predicate Safe<E(==), C(==)>(p: Pool<E, C>) {
    Kept(p) && NoneIdle(p)
  }

  lemma RetireSited<E, C>(p: Pool<E, C>, published: seq<E>)
    requires Sited(p) && Counted(p)
    ensures Sited(Retire(p, published)) && Counted(Retire(p, published))
  {
    var q := Retire(p, published);
    forall c | c in q.closed ensures Placed(q, c) {
      assert Placed(p, c);
      if c in p.current.Values {
        var e :| e in p.current && p.current[e] == c;
        assert e in published ==> e in q.current && q.current[e] == c;
      }
    }
  }

  /** Closing idle retired clients keeps everything in place. */
  lemma CloseSited<E, C>(p: Pool<E, C>, idle: set<C>)
    requires Sited(p) && Counted(p) && idle <= p.retired
    requires forall c :: c in idle ==> c in p.requests && p.requests[c] == 0
    ensures Sited(Close(p, idle)) && Counted(Close(p, idle))
  {
    var q := Close(p, idle);
    forall c | c in q.closed ensures Placed(q, c) && q.closed[c] <= 1 {
      assert Placed(p, c);
    }
  }

  /** An update that closes what it has to makes up for every close that failed before. */
  lemma UpdateSafe<E, C>(p: Pool<E, C>, published: seq<E>)
    requires Kept(p)
    ensures Safe(Update(p, published))
  {
    hide Sited, Counted;
    RetireSited(p, published);
    var q := Retire(p, published);
    CloseSited(q, Idle(q));
    assert q.requests.Keys >= q.retired by { RetiredCounted(q); }
  }

  lemma RetiredCounted<E, C>(p: Pool<E, C>)
    requires Sited(p) && Counted(p)
    ensures p.requests.Keys >= p.retired
  {}

  /** An update keeps exactly the clients of the endpoints that are still published. A client whose endpoint was
      withdrawn is closed if nobody borrows it and otherwise stays retired until then, and so does every client retired
      before. */
  lemma UpdateWithdraws<E, C>(p: Pool<E, C>, published: seq<E>)
    requires Kept(p)
    ensures var q := Update(p, published);
            && q.borrows == p.borrows
            && (forall e :: e in q.current <==> e in p.current && e in published)
            && (forall e :: e in q.current ==> q.current[e] == p.current[e])
            && (forall e :: e in p.current && e !in published ==> Withdrawn(p, q, p.current[e]))
            && (forall c :: c in p.retired ==> Withdrawn(p, q, c))
  {
    var r, q := Retire(p, published), Update(p, published);
    RetireSited(p, published);
    forall e | e in p.current && e !in published ensures Withdrawn(p, q, p.current[e]) {
      assert p.current[e] in r.retired;
      LeavesRetired(r, p.current[e]);
    }
    forall c | c in p.retired ensures Withdrawn(p, q, c) {
      LeavesRetired(r, c);
    }
  }

  predicate Withdrawn<E(==), C(==)>(p: Pool<E, C>, q: Pool<E, C>, c: C) {
    && c in q.closed
    && if p.borrows[c] == 0 then q.closed[c] == 1 && c !in q.retired else q.closed[c] == 0 && c in q.retired
  }

  lemma LeavesRetired<E, C>(r: Pool<E, C>, c: C)
    requires Kept(r) && c in r.retired
    ensures Withdrawn(r, Close(r, Idle(r)), c)
  {
    assert Placed(r, c);
  }

  lemma AdmitSited<E, C>(p: Pool<E, C>, e: E, made: C)
    requires Sited(p) && made !in p.closed && e !in p.current
    ensures Sited(Admit(p, e, made))
  {
    var q := Admit(p, e, made);
    assert q.current[e] == made;
    forall d | d in q.closed ensures Placed(q, d) {
      if d != made {
        assert Placed(p, d);
        if d in p.current.Values {
          var f :| f in p.current && p.current[f] == d;
          assert q.current[f] == d;
        }
      }
    }
  }

  lemma AdmitKept<E, C>(p: Pool<E, C>, e: E, made: C)
    requires Kept(p) && made !in p.requests
    ensures var q, c := Admit(p, e, made), Chosen(p, e, made);
            Kept(q) && c in q.current.Values && (NoneIdle(p) ==> NoneIdle(q))
  {
    if e in p.current {
      return;
    }
    AdmitSited(p, e, made);
    hide Sited;
    var q := Admit(p, e, made);
    assert q.current[e] == made;
  }

  lemma LendKept<E, C>(p: Pool<E, C>, c: C)
    requires Kept(p) && c in p.current.Values
    ensures var q := Lend(p, c);
            && Kept(q) && c in q.current.Values && c !in q.retired && p.closed[c] == 0
            && (NoneIdle(p) ==> NoneIdle(q))
  {
    var q := Lend(p, c);
    assert Placed(p, c);
    forall d | d in q.closed ensures Placed(q, d) { assert Placed(p, d); }
  }

  /** A borrow yields a client that is current, open and not retired. */
  lemma BorrowKept<E, C>(p: Pool<E, C>, e: E, made: C)
    requires Kept(p) && made !in p.requests
    ensures var q, c := Borrow(p, e, made), Chosen(p, e, made);
            && Kept(q) && q.borrows == p.borrows + multiset{c} && (NoneIdle(p) ==> NoneIdle(q))
            && e in q.current && q.current[e] == c && (e in p.current ==> c == p.current[e])
            && (forall f :: f != e ==>
                  (f in q.current <==> f in p.current) && (f in q.current ==> q.current[f] == p.current[f]))
            && c in q.current.Values && c !in q.retired && c in q.closed && q.closed[c] == 0
  {
    AdmitKept(p, e, made);
    hide Kept, NoneIdle;
    LendKept(Admit(p, e, made), Chosen(p, e, made));
  }

  lemma TakeBackSited<E, C>(p: Pool<E, C>, c: C)
    requires Sited(p) && c in p.closed
    ensures Sited(TakeBack(p, c))
  {
    var q := TakeBack(p, c);
    forall d | d in q.closed ensures Placed(q, d) { assert Placed(p, d); }
  }

  lemma TakeBackCounted<E, C>(p: Pool<E, C>, c: C)
    requires Counted(p) && c in p.borrows
    ensures c in p.closed && Counted(TakeBack(p, c))
    ensures NoneIdle(p) ==> NoneIdle(TakeBack(p, c).(retired := p.retired - {c}))
  {}

  lemma GiveBackKept<E, C>(p: Pool<E, C>, c: C)
    requires Kept(p) && c in p.borrows
    ensures Kept(GiveBack(p, c)) && (NoneIdle(p) ==> NoneIdle(GiveBack(p, c)))
    ensures Kept(TakeBack(p, c))
  {
    TakeBackCounted(p, c);
    TakeBackSited(p, c);
    var q := TakeBack(p, c);
    hide Sited, Counted;
    if c in q.retired && q.requests[c] == 0 {
      CloseSited(q, {c});
    }
  }

  ghost predicate EnabledRun<E, C>(p: Pool<E, C>, steps: seq<Step<E, C>>)
    decreases |steps|
  {
    steps == [] || (Enabled(p, steps[0]) && EnabledRun(Next(p, steps[0]), steps[1..]))
  }

  function Run<E(==), C(==)>(p: Pool<E, C>, steps: seq<Step<E, C>>): Pool<E, C>
    decreases |steps|
  {
    if steps == [] then p else Run(Next(p, steps[0]), steps[1..])
  }

  predicate Succeeds<E(==), C(==)>(s: Step<E, C>) {
    !s.PublishFails? && !s.ReturnFails?
  }

  lemma NextKept<E, C>(p: Pool<E, C>, s: Step<E, C>)
    requires Kept(p) && Enabled(p, s)
    ensures Kept(Next(p, s)) && (NoneIdle(p) && Succeeds(s) ==> NoneIdle(Next(p, s)))
  {
    hide Sited, Counted, NoneIdle, Update, Borrow, GiveBack, Retire, Close, TakeBack;
    match s {
      case Publish(endpoints) => UpdateSafe(p, endpoints);
      case Open(e, made) => BorrowKept(p, e, made);
      case Return(c) => GiveBackKept(p, c);
      case PublishFails(endpoints, done) =>
        RetireSited(p, endpoints);
        CloseSited(Retire(p, endpoints), done);
      case ReturnFails(c) => GiveBackKept(p, c);
    }
  }

  /** In every order of updates, borrows and returns, and whatever close fails, each count equals the open borrows, a
      borrowed client is not closed, every created client is in exactly one of current, retired and closed, and none
      is closed twice. */
  lemma {:induction false} RunsAreKept<E, C>(p: Pool<E, C>, steps: seq<Step<E, C>>)
    requires Kept(p) && EnabledRun(p, steps)
    ensures Kept(Run(p, steps))
    decreases |steps|
  {
    hide Kept, Next, Enabled;
    if steps != [] {
      NextKept(p, steps[0]);
      RunsAreKept(Next(p, steps[0]), steps[1..]);
    }
  }

  /** If no close fails, moreover no retired client is idle between operations. */
  lemma {:induction false} RunsAreSafe<E, C>(p: Pool<E, C>, steps: seq<Step<E, C>>)
    requires Safe(p) && EnabledRun(p, steps) && forall i :: 0 <= i < |steps| ==> Succeeds(steps[i])
    ensures Safe(Run(p, steps))
    decreases |steps|
  {
    hide Kept, NoneIdle, Next, Enabled, Succeeds;
    if steps != [] {
      NextKept(p, steps[0]);
      RunsAreSafe(Next(p, steps[0]), steps[1..]);
    }
  }

  /** Some of the steps borrows for this endpoint. */
  predicate Opens<E(==), C(==)>(steps: seq<Step<E, C>>, e: E) {
    exists i :: 0 <= i < |steps| && steps[i].Open? && steps[i].endpoint == e
  }

  /** Whatever happens after an update, an endpoint has a current client only if that update published it or it was
      opened since. */
  lemma {:induction false} CurrentWasPublishedOrOpened<E, C>(p: Pool<E, C>, steps: seq<Step<E, C>>, e: E)
    requires e in Run(p, steps).current
    ensures e in p.current || Opens(steps, e)
    decreases |steps|
  {
    hide Next, Opens;
    if steps != [] {
      var q := Next(p, steps[0]);
      CurrentWasPublishedOrOpened(q, steps[1..], e);
      if e in q.current { NextCurrent(p, steps[0], e); }
      OpensStep(steps, e);
    }
  }

  lemma OpensStep<E, C>(steps: seq<Step<E, C>>, e: E)
    requires steps != []
    ensures Opens(steps[1..], e) || (steps[0].Open? && steps[0].endpoint == e) ==> Opens(steps, e)
  {
    if i :| 0 <= i < |steps| - 1 && steps[1..][i].Open? && steps[1..][i].endpoint == e {
      assert steps[i + 1].Open? && steps[i + 1].endpoint == e;
    }
  }

  lemma NextCurrent<E, C>(p: Pool<E, C>, s: Step<E, C>, e: E)
    requires e in Next(p, s).current
    ensures e in p.current || (s.Open? && s.endpoint == e)
  {}

  lemma UpdateDecidesCurrent<E, C>(p: Pool<E, C>, published: seq<E>, steps: seq<Step<E, C>>, e: E)
    requires Kept(p) && e in Run(Update(p, published), steps).current
    ensures (e in p.current && e in published) || Opens(steps, e)
  {
    hide Run, Update, Opens, Kept;
    CurrentWasPublishedOrOpened(Update(p, published), steps, e);
    UpdateWithdraws(p, published);
  }

  /** Once every borrow is returned and an update succeeds nothing is left retired, whatever close failed before: every
      withdrawn client has been closed, once. */
  lemma NothingLeaks<E, C>(p: Pool<E, C>, steps: seq<Step<E, C>>, published: seq<E>)
    requires Kept(p) && EnabledRun(p, steps) && Run(p, steps).borrows == multiset{}
    ensures var q := Update(Run(p, steps), published);
            q.retired == {} && forall c :: c in q.closed ==> (q.closed[c] == 1 <==> c !in q.current.Values)
  {
    RunsAreKept(p, steps);
    hide Run;
    UpdateSafe(Run(p, steps), published);
    var q := Update(Run(p, steps), published);
    AllClosed(q);
  }

  lemma AllClosed<E, C>(q: Pool<E, C>)
    requires Safe(q) && q.borrows == multiset{}
    ensures q.retired == {} && forall c :: c in q.closed ==> (q.closed[c] == 1 <==> c !in q.current.Values)
  {
    forall c | c in q.closed ensures q.closed[c] == 1 <==> c !in q.current.Values {
      assert Placed(q, c);
    }
  }
}

/** The pool and its entries as objects. */
module ClientsState {
  import opened Clients

  /** One pooled client with its count; `closed` counts how often it was closed. */
  class HttpClient {
    var requests: nat
    ghost var closed: nat

    constructor ()
      ensures requests == 0 && closed == 0
    {
      requests, closed := 0, 0;
    }

    method CloseConnection()
      modifies this
      ensures requests == old(requests) && closed == old(closed) + 1
    {
      closed := closed + 1;
    }
  }

  class HttpClients<E(==)> {
    var current: map<E, HttpClient>
    var retired: set<HttpClient>
    ghost var created: set<HttpClient>
    ghost var borrows: multiset<HttpClient>

    ghost function Now(): Pool<E, HttpClient>
      reads this, created
    {
      Pool(current, retired, map c | c in created :: c.requests, map c | c in created :: c.closed, borrows)
    }

    ghost predicate Valid()
      reads this, created
    {
      Kept(Now())
    }

    constructor ()
      ensures Valid() && Safe(Now()) && created == {} && Now() == Empty()
    {
      current, retired, created, borrows := map[], {}, {}, multiset{};
    }

    /** The first loop of `update`. */
    method RetireWithdrawn(published: seq<E>)
      modifies this
      ensures created == old(created) && Now() == Retire(old(Now()), published)
    {
      var left := current.Keys;
      ghost var before := current;
      while left != {}
        invariant left <= before.Keys && created == old(created) && borrows == old(borrows)
        invariant current == map e | e in before && (e in published || e in left) :: before[e]
        invariant retired == old(retired) + set e | e in before && e !in published && e !in left :: before[e]
      {
        var endpoint :| endpoint in left;
        var entry := current[endpoint];
        if endpoint !in published {
          retired := retired + {entry};
          current := current - {endpoint};
        }
        left := left - {endpoint};
      }
    }

    /** The second loop of `update`, which the first close that fails ends. */
    method CloseIdle(fails: set<HttpClient>) returns (raised: bool, ghost done: set<HttpClient>)
      requires retired <= created
      modifies this, created
      ensures created == old(created) && done <= Idle(old(Now())) && Now() == Close(old(Now()), done)
      ensures if raised then done < Idle(old(Now())) else done == Idle(old(Now()))
      ensures raised <==> exists c :: c in fails && c in Idle(old(Now()))
    {
      var left := retired;
      ghost var before, idle := Now(), Idle(Now());
      done := {};
      while left != {}
        invariant left <= old(retired) && created == old(created) && borrows == old(borrows) && current == old(current)
        invariant done == idle - left && done !! fails
        invariant retired == old(retired) - done
        invariant forall c :: c in created ==> c.requests == old(c.requests)
        invariant forall c :: c in created ==> c.closed == old(c.closed) + if c in done then 1 else 0
      {
        var entry :| entry in left;
        if entry.requests == 0 {
          assert entry in idle;
          if entry in fails {
            return true, done;
          }
          entry.CloseConnection();
          retired := retired - {entry};
          done := done + {entry};
        }
        left := left - {entry};
      }
      return false, done;
    }

    /** An update; `raised` tells that some close failed. */
    method Publish(published: seq<E>, fails: set<HttpClient>) returns (raised: bool, ghost done: set<HttpClient>)
      requires Valid()
      modifies this, created
      ensures Valid() && created == old(created)
      ensures if raised
              then done < Idle(Retire(old(Now()), published)) && Now() == Close(Retire(old(Now()), published), done)
              else Safe(Now()) && Now() == Update(old(Now()), published)
    {
      hide Retire, Close;
      UpdateSafe(Now(), published);
      ghost var before := Now();
      RetireSited(before, published);
      RetireWithdrawn(published);
      hide Sited, Counted;
      assert retired <= created by { RetiredCounted(Now()); }
      ghost var middle := Now();
      raised, done := CloseIdle(fails);
      CloseSited(middle, done);
    }

    method AddEntry(endpoint: E) returns (entry: HttpClient)
      requires endpoint !in current
      modifies this
      ensures created == old(created) + {entry} && fresh(entry)
      ensures Now() == Admit(old(Now()), endpoint, entry)
    {
      ghost var before := Now();
      entry := new HttpClient();
      current := current[endpoint := entry];
      created := created + {entry};
      assert Now().requests == before.requests[entry := 0];
      assert Now().closed == before.closed[entry := 0];
    }

    method Count(entry: HttpClient)
      requires entry in created
      modifies this, entry
      ensures created == old(created) && Now() == Lend(old(Now()), entry)
    {
      ghost var before := Now();
      entry.requests := entry.requests + 1;
      borrows := borrows + multiset{entry};
      assert Now().requests == before.requests[entry := before.requests[entry] + 1];
      assert Now().closed == before.closed;
    }

    method Uncount(entry: HttpClient)
      requires entry in created && entry.requests > 0
      modifies this, entry
      ensures created == old(created) && Now() == TakeBack(old(Now()), entry)
    {
      ghost var before := Now();
      entry.requests := entry.requests - 1;
      borrows := borrows - multiset{entry};
      assert Now().requests == before.requests[entry := before.requests[entry] - 1];
      assert Now().closed == before.closed;
    }

    method CloseOne(entry: HttpClient)
      requires entry in created
      modifies this, entry
      ensures created == old(created) && Now() == Close(old(Now()), {entry})
    {
      ghost var before := Now();
      entry.CloseConnection();
      retired := retired - {entry};
      assert Now().requests == before.requests;
      assert Now().closed == Close(before, {entry}).closed;
    }

    /** Enters a borrow of the current client of the endpoint, or of a new one. */
    method Open(endpoint: E) returns (entry: HttpClient)
      requires Valid()
      modifies this, created
      ensures Valid() && created == old(created) + {entry} && (entry in old(created) || fresh(entry))
      ensures entry == Chosen(old(Now()), endpoint, entry) && Now() == Borrow(old(Now()), endpoint, entry)
      ensures NoneIdle(old(Now())) ==> NoneIdle(Now())
    {
      ghost var before := Now();
      if endpoint in current {
        entry := current[endpoint];
        KnownClient(before, endpoint);
        assert created == created + {entry};
      } else {
        entry := AddEntry(endpoint);
        assert entry !in before.requests;
        AdmitKept(before, endpoint, entry);
      }
      hide Kept, NoneIdle;
      LendKept(Now(), entry);
      Count(entry);
    }

    lemma KnownClient(p: Pool<E, HttpClient>, e: E)
      requires Kept(p) && e in p.current
      ensures p.current[e] in p.current.Values && p.current[e] in p.closed
    {
      assert p.current[e] in p.current.Values;
    }

    /** Leaves a borrow; `fails` says that closing the client raises, and `raised` that it was tried. */
    method Return(entry: HttpClient, fails: bool) returns (raised: bool)
      requires Valid() && entry in borrows
      modifies this, created
      ensures Valid() && created == old(created)
      ensures raised ==> fails && Now() == TakeBack(old(Now()), entry)
      ensures !raised ==> Now() == GiveBack(old(Now()), entry) && (NoneIdle(old(Now())) ==> NoneIdle(Now()))
      ensures raised <==> fails && entry in old(retired) && old(entry.requests) == 1
    {
      ghost var before := Now();
      HeldClient(before, entry);
      GiveBackKept(before, entry);
      hide Kept, NoneIdle;
      Uncount(entry);
      assert Now().requests[entry] == entry.requests;
      raised := false;
      if entry in retired && entry.requests == 0 {
        if fails {
          return true;
        }
        CloseOne(entry);
      }
    }

    lemma HeldClient(p: Pool<E, HttpClient>, c: HttpClient)
      requires Kept(p) && c in p.borrows
      ensures c in p.requests && p.requests[c] > 0
    {}
  }
}
