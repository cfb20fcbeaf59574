/** The two services that fail over between mirrors: reverse geocoding and Overpass queries. Each keeps its
    blacklist in place; the ghost trace records what it did as steps of the mirror protocol. */
module MirrorServices {
  import opened MirrorProtocol
  import opened Sequences
  import opened Wrappers

  // ---------- keeping the trace ----------

  // The trace ends inside call q, whose mirrors still to contact are `rest`.
  ghost predicate Open(pool: Pool, trace: seq<Step>, q: nat, rest: seq<string>, b: Blacklist) {
    && Valid(pool, trace) && InTurn(trace)
    && q < |trace| && trace[q].Begin? && (forall x :: q < x < |trace| ==> trace[x].Contact?)
    && Run(pool, trace).blacklist == b && q in Run(pool, trace).todo && Run(pool, trace).todo[q] == rest
  }

  predicate InTurn(trace: seq<Step>) {
    ClockRuns(trace) && OneAtATime(trace)
  }

  // No call has begun after the given time.
  predicate BeganBy(trace: seq<Step>, now: int) {
    forall i :: 0 <= i < |trace| && trace[i].Begin? ==> trace[i].now <= now
  }

  lemma Opened(pool: Pool, trace: seq<Step>, b: Blacklist, now: int, order: seq<string>)
    requires Valid(pool, trace) && InTurn(trace) && BeganBy(trace, now) && Run(pool, trace).blacklist == b
    requires multiset(order) == multiset(Candidates(pool, b, now))
    ensures Open(pool, trace + [Begin(now, order)], |trace|, Planned(pool, order),
                 if Resets(pool, b, now) then map[] else b)
    ensures BeganBy(trace + [Begin(now, order)], now)
  {
    hide Valid, Run, Eligible, Planned;
    Extend(pool, trace, Begin(now, order));
    ClosedContacts(pool, trace);
  }

  // Contacts name calls that began before them.
  lemma ClosedContacts(pool: Pool, trace: seq<Step>)
    requires Valid(pool, trace)
    ensures forall r :: 0 <= r < |trace| && trace[r].Contact? ==> Began(trace, trace[r].call, r)
  {
    forall r | 0 <= r < |trace| && trace[r].Contact? ensures Began(trace, trace[r].call, r) {
      ContactExtends(pool, trace, r);
    }
  }

  lemma Contacted(pool: Pool, trace: seq<Step>, q: nat, rest: seq<string>, b: Blacklist, outcome: Outcome)
    requires Open(pool, trace, q, rest, b) && rest != [] && (outcome.Listed? ==> outcome.until > 0)
    ensures var trace' := trace + [Contact(q, outcome)];
            && Valid(pool, trace') && InTurn(trace')
            && Run(pool, trace').blacklist == (if outcome.Listed? then b[rest[0] := outcome.until] else b)
            && (!outcome.Answered? ==> Open(pool, trace', q, rest[1..], Run(pool, trace').blacklist))
            && forall now :: BeganBy(trace, now) ==> BeganBy(trace', now)
  {
    hide Valid, Run;
    Extend(pool, trace, Contact(q, outcome));
  }

  lemma Closed(pool: Pool, trace: seq<Step>, q: nat, rest: seq<string>, b: Blacklist)
    requires Open(pool, trace, q, rest, b)
    ensures Valid(pool, trace) && InTurn(trace) && Run(pool, trace).blacklist == b
  {
  }

  // What the contacts of a call are, and the answer it gets, when each mirror meets a given outcome.
  function Contacting(q: nat, order: seq<string>, outcome: string -> Outcome): seq<Step> {
    if order == [] then [] else
      var o := outcome(order[0]);
      [Contact(q, o)] + if o.Answered? then [] else Contacting(q, order[1..], outcome)
  }

  function FirstAnswer(order: seq<string>, outcome: string -> Outcome): Option<string> {
    if order == [] then None
    else if outcome(order[0]).Answered? then Some(order[0])
    else FirstAnswer(order[1..], outcome)
  }

  // The mirrors a call plans to contact, its steps, and the mirror that answers it.
  function Plan(pool: Pool, b: Blacklist, now: int, sort: seq<string> -> seq<string>): seq<string> {
    Planned(pool, sort(Candidates(pool, b, now)))
  }

  function Exchange(pool: Pool, b: Blacklist, now: int, sort: seq<string> -> seq<string>, q: nat,
                    outcome: string -> Outcome): seq<Step> {
    [Begin(now, sort(Candidates(pool, b, now)))] + Contacting(q, Plan(pool, b, now, sort), outcome)
  }

  lemma ContactingStep(q: nat, order: seq<string>, i: nat, outcome: string -> Outcome)
    requires i < |order|
    ensures var o := outcome(order[i]);
            && order[i..][1..] == order[i + 1..]
            && Contacting(q, order[i..], outcome)
               == [Contact(q, o)] + (if o.Answered? then [] else Contacting(q, order[i + 1..], outcome))
            && FirstAnswer(order[i..], outcome)
               == if o.Answered? then Some(order[i]) else FirstAnswer(order[i + 1..], outcome)
  {
    assert order[i..][1..] == order[i + 1..];
  }

  // Some mirror answers exactly when the search for an answer finds one; those before it do not answer.
  lemma {:induction false} AnswerIsFirst(order: seq<string>, outcome: string -> Outcome)
    ensures FirstAnswer(order, outcome).None? <==> forall m :: m in order ==> !outcome(m).Answered?
    ensures FirstAnswer(order, outcome).Some? ==>
      exists k :: 0 <= k < |order| && FirstAnswer(order, outcome) == Some(order[k]) && outcome(order[k]).Answered?
        && (forall j :: 0 <= j < k ==> !outcome(order[j]).Answered?)
  {
    if order != [] {
      assert order == [order[0]] + order[1..];
      AnswerIsFirst(order[1..], outcome);
      if outcome(order[0]).Answered? {
        assert FirstAnswer(order, outcome) == Some(order[0]);
      } else if FirstAnswer(order, outcome).Some? {
        var k :| 0 <= k < |order| - 1 && FirstAnswer(order, outcome) == Some(order[1..][k])
                 && outcome(order[1..][k]).Answered? && forall j :: 0 <= j < k ==> !outcome(order[1..][j]).Answered?;
        assert order[k + 1] == order[1..][k];
        forall j | 0 <= j < k + 1 ensures !outcome(order[j]).Answered? {
          assert j > 0 ==> order[j] == order[1..][j - 1];
        }
      }
    }
  }

  datatype Fault = Dns | Timeout | OtherFault

  ghost predicate Sorts(sort: seq<string> -> seq<string>) {
    forall s :: multiset(sort(s)) == multiset(s)
  }

  // ---------- reverse geocoding ----------

  // The body of a reply: not a JSON object, or an object that has features or not.
  datatype Body = Garbage | Object(data: string, features: bool)

  datatype Reply = Thrown(fault: Fault) | Http(status: int, json: bool, body: Body)

  const MINUTE := 60000

  // What a reply leads to for a call that started at the given time.
  function ReverseOutcome(start: int, photon: bool, reply: Reply): Outcome {
    if reply.Thrown? then
      Listed(start + if reply.fault.Dns? then 120 * MINUTE else if reply.fault.Timeout? then MINUTE else 30 * MINUTE)
    else
      var ok := 200 <= reply.status <= 299;
      if ok && reply.json then
        if reply.body.Garbage? then Listed(start + 30 * MINUTE)
        else if photon && !reply.body.features then Failed
        else Answered
      else if reply.status == 429 || reply.status >= 500 || reply.status == 404 || ok then Listed(start + 30 * MINUTE)
      else Failed
  }

  lemma ReverseListsLater(start: int, photon: bool, reply: Reply)
    ensures var o := ReverseOutcome(start, photon, reply);
            && (o.Listed? ==> start < o.until <= start + 120 * MINUTE)
            && (o.Answered? ==> reply.Http? && reply.body.Object?)
  {
  }

  // The listings of the overlapping run are those of a failed name lookup and of a timeout.
  lemma OverlapComesFromFaults(pool: Pool)
    ensures Overlap(pool)[2].outcome == ReverseOutcome(Overlap(pool)[1].now, false, Thrown(Dns))
    ensures Overlap(pool)[3].outcome == ReverseOutcome(Overlap(pool)[0].now, false, Thrown(Timeout))
  {
  }

  datatype Place = FromMirror(data: string) | FromModel(data: string) | Coordinates

  class ReverseGeocoder {
    const pool: Pool
    var blacklist: Blacklist
    ghost var trace: seq<Step>

    ghost predicate Consistent() reads this {
      && Distinct(pool.mirrors) && pool.least == 1 && pool.cap == |pool.mirrors|
      && Valid(pool, trace) && InTurn(trace) && Run(pool, trace).blacklist == blacklist
    }

    constructor (mirrors: seq<string>)
      requires Distinct(mirrors)
      ensures Consistent() && trace == [] && blacklist == map[] && pool.mirrors == mirrors
    {
      pool := Pool(mirrors, 1, |mirrors|);
      blacklist, trace := map[], [];
      new;
      Empty(pool);
    }

    // The sort is any permutation; `reply` is what each mirror answers; `model` is the language model's answer.
    method PerformOsmReverse(now: int, sort: seq<string> -> seq<string>, photon: string -> bool,
                             reply: string -> Reply, model: Option<string>) returns (place: Place)
      requires Consistent() && BeganBy(trace, now) && now > 0 && Sorts(sort)
      modifies this
      ensures Consistent() && BeganBy(trace, now)
      ensures var outcome := (m: string) => ReverseOutcome(now, photon(m), reply(m));
              && trace == old(trace) + Exchange(pool, old(blacklist), now, sort, |old(trace)|, outcome)
              && place == (var m := FirstAnswer(Plan(pool, old(blacklist), now, sort), outcome);
                           if m.Some? && reply(m.value).Http? && reply(m.value).body.Object? then
                             FromMirror(reply(m.value).body.data)
                           else if model.Some? then FromModel(model.value) else Coordinates)
    {
      hide Valid, Run, Eligible, Open, InTurn, BeganBy, ReverseOutcome, FirstAnswer, Contacting, Distinct;
      ghost var was, b0, q := trace, blacklist, |trace|;
      ghost var order := sort(Candidates(pool, b0, now));
      var mirrors := Eligible(blacklist, pool.mirrors, now);
      Opened(pool, trace, blacklist, now, order);
      AllPlanned(pool, order, b0, now);
      trace := trace + [Begin(now, order)];
      if mirrors == [] {
        blacklist := map[];
        mirrors := pool.mirrors;
      }
      mirrors := sort(mirrors);
      ghost var outcome := (m: string) => ReverseOutcome(now, photon(m), reply(m));
      var first := TryMirrors(now, mirrors, photon, reply, q);
      Regroup(was, [Begin(now, order)], Contacting(q, order, outcome));
      if first.Some? {
        AnswerIsFirst(order, outcome);
        ReverseListsLater(now, photon(first.value), reply(first.value));
        return FromMirror(reply(first.value).body.data);
      }
      place := if model.Some? then FromModel(model.value) else Coordinates;
    }

    // Contacts the mirrors in turn until one answers.
    method TryMirrors(now: int, mirrors: seq<string>, photon: string -> bool, reply: string -> Reply, ghost q: nat)
      returns (first: Option<string>)
      requires Distinct(pool.mirrors) && pool.least == 1 && pool.cap == |pool.mirrors|
      requires now > 0 && BeganBy(trace, now) && Open(pool, trace, q, mirrors, blacklist)
      modifies this
      ensures Consistent() && BeganBy(trace, now)
      ensures var outcome := (m: string) => ReverseOutcome(now, photon(m), reply(m));
              trace == old(trace) + Contacting(q, mirrors, outcome) && first == FirstAnswer(mirrors, outcome)
    {
      hide Valid, Run, Open, InTurn, BeganBy, ReverseOutcome, FirstAnswer, Contacting, Distinct;
      ghost var was, outcome := trace, (m: string) => ReverseOutcome(now, photon(m), reply(m));
      for i := 0 to |mirrors|
        invariant Open(pool, trace, q, mirrors[i..], blacklist) && BeganBy(trace, now)
        invariant trace + Contacting(q, mirrors[i..], outcome) == was + Contacting(q, mirrors, outcome)
        invariant FirstAnswer(mirrors[i..], outcome) == FirstAnswer(mirrors, outcome)
      {
        var mirror := mirrors[i];
        var result := ReverseOutcome(now, photon(mirror), reply(mirror));
        ReverseListsLater(now, photon(mirror), reply(mirror));
        ContactingStep(q, mirrors, i, outcome);
        Contacted(pool, trace, q, mirrors[i..], blacklist, result);
        Regroup(trace, [Contact(q, result)], Contacting(q, mirrors[i + 1..], outcome));
        trace := trace + [Contact(q, result)];
        if result.Answered? {
          return Some(mirror);
        }
        if result.Listed? {
          blacklist := blacklist[mirror := result.until];
        }
      }
      NothingLeft(q, mirrors, outcome);
      Closed(pool, trace, q, mirrors[|mirrors|..], blacklist);
      first := None;
    }
  }

  lemma NothingLeft(q: nat, order: seq<string>, outcome: string -> Outcome)
    ensures Contacting(q, order[|order|..], outcome) == [] && FirstAnswer(order[|order|..], outcome) == None
  {
  }

  lemma AllPlanned(pool: Pool, order: seq<string>, b: Blacklist, now: int)
    requires pool.cap == |pool.mirrors| && multiset(order) == multiset(Candidates(pool, b, now))
    ensures Planned(pool, order) == order
  {
    SameLength(order, Candidates(pool, b, now));
  }

  lemma SameLength(a: seq<string>, b: seq<string>)
    requires multiset(a) == multiset(b)
    ensures |a| == |b|
  {
    assert |a| == |multiset(a)| && |b| == |multiset(b)|;
  }

  // ---------- Overpass queries ----------

  datatype OverpassReply = OverpassThrown(fault: Fault) | OverpassHttp(status: int, data: Option<string>)

  // What a reply that ends at the given time leads to; `data` is absent for a body that is not usable.
  function OverpassOutcome(end: int, reply: OverpassReply): Outcome {
    if reply.OverpassThrown? then
      Listed(end + if reply.fault.Dns? then 240 * MINUTE else if reply.fault.Timeout? then 20000 else 15 * MINUTE)
    else if 200 <= reply.status <= 299 then
      if reply.data.Some? then Answered else Listed(end + 15 * MINUTE)
    else
      Listed(end + if reply.status == 429 then 10 * MINUTE
                   else if reply.status == 406 then 120 * MINUTE
                   else 15 * MINUTE)
  }

  // Every contact either answers or blacklists the mirror.
  lemma OverpassListsLater(end: int, reply: OverpassReply)
    ensures var o := OverpassOutcome(end, reply);
            && (o.Answered? || (o.Listed? && end + 20000 <= o.until <= end + 240 * MINUTE))
            && (o.Answered? <==> reply.OverpassHttp? && 200 <= reply.status <= 299 && reply.data.Some?)
  {
  }

  datatype Cached = Cached(data: string, timestamp: int)

  datatype Elements = FromServer(data: string) | FromCache(data: string) | NoElements

  class OverpassProxy {
    const pool: Pool
    var blacklist: Blacklist
    var cache: map<string, Cached>
    ghost var trace: seq<Step>

    const CACHE_TTL := 1440 * MINUTE

    ghost predicate Consistent() reads this {
      && Distinct(pool.mirrors) && pool.least == 3 && pool.cap == 6
      && Valid(pool, trace) && InTurn(trace) && Run(pool, trace).blacklist == blacklist
    }

    constructor (mirrors: seq<string>)
      requires Distinct(mirrors)
      ensures Consistent() && trace == [] && blacklist == map[] && cache == map[] && pool.mirrors == mirrors
    {
      pool := Pool(mirrors, 3, 6);
      blacklist, trace, cache := map[], [], map[];
      new;
      Empty(pool);
    }

    predicate Fresh(key: string, now: int) reads this {
      key in cache && now - cache[key].timestamp < CACHE_TTL
    }

    // `query` is the validated query or why it was refused; `end` is when the contact with a mirror ends.
    method FetchFromOverpass(query: Result<string, string>, now: int, sort: seq<string> -> seq<string>,
                             end: string -> int, reply: string -> OverpassReply)
      returns (r: Result<Elements, string>)
      requires Consistent() && BeganBy(trace, now) && now > 0 && (forall m :: now <= end(m)) && Sorts(sort)
      modifies this
      ensures Consistent() && BeganBy(trace, now)
      ensures r.Err? <==> query.Err?
      ensures query.Err? ==> r.error == query.error && trace == old(trace) && cache == old(cache)
      ensures query.Ok? && old(Fresh(query.value, now)) ==>
        r.value == FromCache(old(cache)[query.value].data) && trace == old(trace) && cache == old(cache)
      ensures query.Ok? && !old(Fresh(query.value, now)) ==>
        var outcome := (m: string) => OverpassOutcome(end(m), reply(m));
        && trace == old(trace) + Exchange(pool, old(blacklist), now, sort, |old(trace)|, outcome)
        && |trace| <= |old(trace)| + 7
        && var m := FirstAnswer(Plan(pool, old(blacklist), now, sort), outcome);
           && (m.Some? ==>
                 && reply(m.value).OverpassHttp? && reply(m.value).data.Some?
                 && r.value == FromServer(reply(m.value).data.value)
                 && cache == old(cache)[query.value := Cached(reply(m.value).data.value, end(m.value))])
           && (m.None? ==> r.value == NoElements && cache == old(cache))
    {
      if query.Err? {
        return Err(query.error);
      }
      if Fresh(query.value, now) {
        return Ok(FromCache(cache[query.value].data));
      }
      var elements := AskMirrors(query.value, now, sort, end, reply);
      r := Ok(elements);
    }

    method AskMirrors(key: string, now: int, sort: seq<string> -> seq<string>, end: string -> int,
                      reply: string -> OverpassReply) returns (r: Elements)
      requires Consistent() && BeganBy(trace, now) && now > 0 && (forall m :: now <= end(m)) && Sorts(sort)
      modifies this
      ensures Consistent() && BeganBy(trace, now)
      ensures var outcome := (m: string) => OverpassOutcome(end(m), reply(m));
        && trace == old(trace) + Exchange(pool, old(blacklist), now, sort, |old(trace)|, outcome)
        && |trace| <= |old(trace)| + 7
        && var m := FirstAnswer(Plan(pool, old(blacklist), now, sort), outcome);
           && (m.Some? ==>
                 && reply(m.value).OverpassHttp? && reply(m.value).data.Some?
                 && r == FromServer(reply(m.value).data.value)
                 && cache == old(cache)[key := Cached(reply(m.value).data.value, end(m.value))])
           && (m.None? ==> r == NoElements && cache == old(cache))
    {
      hide Valid, Run, Eligible, Open, InTurn, BeganBy, OverpassOutcome, FirstAnswer, Contacting, Distinct;
      ghost var was, b0, q := trace, blacklist, |trace|;
      var mirrors := Eligible(blacklist, pool.mirrors, now);
      ghost var order := sort(Candidates(pool, b0, now));
      Opened(pool, trace, blacklist, now, order);
      trace := trace + [Begin(now, order)];
      if |mirrors| < 3 {
        blacklist := map[];
        mirrors := pool.mirrors;
      }
      mirrors := sort(mirrors);
      var attempts := if |mirrors| < 6 then |mirrors| else 6;
      FirstSix(pool, mirrors, attempts);
      ghost var outcome := (m: string) => OverpassOutcome(end(m), reply(m));
      hide Planned, Candidates;
      var first := TryMirrors(now, mirrors[..attempts], end, reply, q);
      Regroup(was, [Begin(now, order)], Contacting(q, mirrors[..attempts], outcome));
      ContactingLength(q, mirrors[..attempts], outcome);
      if first.None? {
        return NoElements;
      }
      AnswerIsFirst(mirrors[..attempts], outcome);
      OverpassListsLater(end(first.value), reply(first.value));
      var data := reply(first.value).data.value;
      cache := cache[key := Cached(data, end(first.value))];
      r := FromServer(data);
    }

    method TryMirrors(ghost now: int, mirrors: seq<string>, end: string -> int, reply: string -> OverpassReply,
                      ghost q: nat)
      returns (first: Option<string>)
      requires Distinct(pool.mirrors) && pool.least == 3 && pool.cap == 6
      requires now > 0 && (forall m :: now <= end(m))
      requires BeganBy(trace, now) && Open(pool, trace, q, mirrors, blacklist)
      modifies this`trace, this`blacklist
      ensures Consistent() && BeganBy(trace, now)
      ensures var outcome := (m: string) => OverpassOutcome(end(m), reply(m));
              trace == old(trace) + Contacting(q, mirrors, outcome) && first == FirstAnswer(mirrors, outcome)
    {
      hide Valid, Run, Open, InTurn, BeganBy, OverpassOutcome, FirstAnswer, Contacting, Distinct;
      ghost var was, outcome := trace, (m: string) => OverpassOutcome(end(m), reply(m));
      for i := 0 to |mirrors|
        invariant Open(pool, trace, q, mirrors[i..], blacklist) && BeganBy(trace, now)
        invariant trace + Contacting(q, mirrors[i..], outcome) == was + Contacting(q, mirrors, outcome)
        invariant FirstAnswer(mirrors[i..], outcome) == FirstAnswer(mirrors, outcome)
      {
        var mirror := mirrors[i];
        var result := OverpassOutcome(end(mirror), reply(mirror));
        OverpassListsLater(end(mirror), reply(mirror));
        ContactingStep(q, mirrors, i, outcome);
        Contacted(pool, trace, q, mirrors[i..], blacklist, result);
        Regroup(trace, [Contact(q, result)], Contacting(q, mirrors[i + 1..], outcome));
        trace := trace + [Contact(q, result)];
        if result.Answered? {
          return Some(mirror);
        }
        if result.Listed? {
          blacklist := blacklist[mirror := result.until];
        }
      }
      NothingLeft(q, mirrors, outcome);
      Closed(pool, trace, q, mirrors[|mirrors|..], blacklist);
      first := None;
    }
  }

  lemma FirstSix(pool: Pool, mirrors: seq<string>, attempts: nat)
    requires pool.cap == 6 && attempts == if |mirrors| < 6 then |mirrors| else 6
    ensures mirrors[..attempts] == Planned(pool, mirrors)
  {
  }

  lemma {:induction false} ContactingLength(q: nat, order: seq<string>, outcome: string -> Outcome)
    ensures |Contacting(q, order, outcome)| <= |order|
  {
    if order != [] {
      ContactingLength(q, order[1..], outcome);
    }
  }
}
