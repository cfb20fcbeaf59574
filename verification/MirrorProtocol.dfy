/** Failover over a pool of mirrors that share one blacklist, as a state machine whose calls may
    interleave: a call begins by choosing the mirrors it will try, then contacts them one by one. */
module MirrorProtocol {
  import opened Sequences

  // The time until which a mirror is blacklisted; 0 counts as no entry.
  type Blacklist = map<string, int>

  // A call resets the blacklist when fewer than `least` mirrors are eligible and makes at most `cap` contacts.
  datatype Pool = Pool(mirrors: seq<string>, least: nat, cap: nat)

  predicate Blocked(b: Blacklist, m: string, now: int) {
    m in b && b[m] != 0 && now <= b[m]
  }

  function Eligible(b: Blacklist, mirrors: seq<string>, now: int): (r: seq<string>)
    ensures forall m :: m in r <==> m in mirrors && !Blocked(b, m, now)
    ensures Distinct(mirrors) ==> Distinct(r)
    ensures |r| <= |mirrors|
  {
    if mirrors == [] then [] else
      var n := |mirrors| - 1;
      assert mirrors == mirrors[..n] + [mirrors[n]];
      Eligible(b, mirrors[..n], now) + if Blocked(b, mirrors[n], now) then [] else [mirrors[n]]
  }

  predicate Resets(pool: Pool, b: Blacklist, now: int) {
    |Eligible(b, pool.mirrors, now)| < pool.least
  }

  function Candidates(pool: Pool, b: Blacklist, now: int): seq<string> {
    if Resets(pool, b, now) then pool.mirrors else Eligible(b, pool.mirrors, now)
  }

  // ---------- the machine ----------

  // What a contact leads to: an answer ends the call; a failure may blacklist the mirror.
  datatype Outcome = Answered | Failed | Listed(until: int)

  // A call is named by the position of its first step.
  datatype Step = Begin(now: int, order: seq<string>) | Contact(call: nat, outcome: Outcome)

  datatype Machine = Machine(blacklist: Blacklist, todo: map<nat, seq<string>>)

  function Planned(pool: Pool, order: seq<string>): seq<string> {
    if |order| <= pool.cap then order else order[..pool.cap]
  }

  predicate Enabled(pool: Pool, m: Machine, step: Step) {
    if step.Begin? then
      multiset(step.order) == multiset(Candidates(pool, m.blacklist, step.now))
    else
      && step.call in m.todo && m.todo[step.call] != []
      && (step.outcome.Listed? ==> step.outcome.until > 0)
  }

  function Next(pool: Pool, m: Machine, step: Step, at: nat): Machine
    requires Enabled(pool, m, step)
  {
    if step.Begin? then
      Machine(if Resets(pool, m.blacklist, step.now) then map[] else m.blacklist,
              m.todo[at := Planned(pool, step.order)])
    else
      var mirror := m.todo[step.call][0];
      if step.outcome.Answered? then Machine(m.blacklist, m.todo - {step.call})
      else Machine(if step.outcome.Listed? then m.blacklist[mirror := step.outcome.until] else m.blacklist,
                   m.todo[step.call := m.todo[step.call][1..]])
  }

  const START := Machine(map[], map[])

  predicate Valid(pool: Pool, trace: seq<Step>)
    decreases |trace|, 0
  {
    trace == [] ||
      var n := |trace| - 1;
      Valid(pool, trace[..n]) && Enabled(pool, Run(pool, trace[..n]), trace[n])
  }

  function Run(pool: Pool, trace: seq<Step>): Machine
    requires Valid(pool, trace)
    decreases |trace|, 1
  {
    if trace == [] then START else
      var n := |trace| - 1;
      Next(pool, Run(pool, trace[..n]), trace[n], n)
  }

  lemma {:induction false} ValidPrefix(pool: Pool, trace: seq<Step>, k: nat)
    requires Valid(pool, trace) && k <= |trace|
    ensures Valid(pool, trace[..k])
  {
    hide Enabled, Run;
    if k == |trace| {
      assert trace[..k] == trace;
    } else {
      ValidPrefix(pool, trace[..|trace| - 1], k);
      assert trace[..|trace| - 1][..k] == trace[..k];
    }
  }

  // The machine before step k of a valid trace.
  function At(pool: Pool, trace: seq<Step>, k: nat): Machine
    requires Valid(pool, trace) && k <= |trace|
  {
    ValidPrefix(pool, trace, k);
    Run(pool, trace[..k])
  }

  lemma StepAt(pool: Pool, trace: seq<Step>, k: nat)
    requires Valid(pool, trace) && k < |trace|
    ensures Enabled(pool, At(pool, trace, k), trace[k])
    ensures At(pool, trace, k + 1) == Next(pool, At(pool, trace, k), trace[k], k)
  {
    hide Enabled, Next;
    ValidPrefix(pool, trace, k);
    ValidPrefix(pool, trace, k + 1);
    assert trace[..k + 1][..k] == trace[..k];
  }

  // ---------- what one call contacts ----------

  // The mirrors call q contacts before step k, in order.
  function Contacts(pool: Pool, trace: seq<Step>, q: nat, k: nat): seq<string>
    requires Valid(pool, trace) && k <= |trace|
  {
    if k == 0 then [] else
      StepAt(pool, trace, k - 1);
      Contacts(pool, trace, q, k - 1) +
        if trace[k - 1].Contact? && trace[k - 1].call == q then [At(pool, trace, k - 1).todo[q][0]] else []
  }

  predicate Began(trace: seq<Step>, q: nat, k: nat) {
    q < k <= |trace| && trace[q].Begin?
  }

  // What step k does to call q.
  lemma CallStep(pool: Pool, trace: seq<Step>, q: nat, k: nat)
    requires Valid(pool, trace) && k < |trace|
    ensures var todo, todo', step := At(pool, trace, k).todo, At(pool, trace, k + 1).todo, trace[k];
            var done, done' := Contacts(pool, trace, q, k), Contacts(pool, trace, q, k + 1);
            if step.Contact? && step.call == q then
              && q in todo && todo[q] != [] && done' == done + [todo[q][0]]
              && (q in todo' ==> todo'[q] == todo[q][1..])
            else if step.Begin? && k == q then
              done' == done && q in todo' && todo'[q] == Planned(pool, step.order)
            else
              && done' == done && (q in todo <==> q in todo')
              && (q in todo ==> todo'[q] == todo[q])
  {
    hide At, Planned;
    StepAt(pool, trace, k);
  }

  lemma Moved(done: seq<string>, todo: seq<string>)
    requires todo != []
    ensures done + todo == done + [todo[0]] + todo[1..] && done + [todo[0]] <= done + todo
  {
  }

  // A call contacts the mirrors it planned, in their order.
  lemma {:induction false} CallProgress(pool: Pool, trace: seq<Step>, q: nat, k: nat)
    requires Valid(pool, trace) && k <= |trace|
    ensures var todo, done := At(pool, trace, k).todo, Contacts(pool, trace, q, k);
            if !Began(trace, q, k) then q !in todo && done == []
            else if q in todo then done + todo[q] == Planned(pool, trace[q].order)
            else done <= Planned(pool, trace[q].order)
    decreases k
  {
    if k == 0 {
      assert trace[..0] == [];
    } else {
      hide Planned, Enabled, At, Contacts, Valid;
      var todo, done := At(pool, trace, k - 1).todo, Contacts(pool, trace, q, k - 1);
      CallProgress(pool, trace, q, k - 1);
      CallStep(pool, trace, q, k - 1);
      if trace[k - 1].Contact? && trace[k - 1].call == q {
        Moved(done, todo[q]);
      }
    }
  }

  // Every mirror a call contacts was a candidate when it began; it contacts none twice, and no more than the cap.
  lemma ContactsOfCall(pool: Pool, trace: seq<Step>, q: nat, k: nat)
    requires Valid(pool, trace) && Distinct(pool.mirrors) && Began(trace, q, k)
    ensures var done := Contacts(pool, trace, q, k);
            && Distinct(done) && |done| <= pool.cap
            && forall m :: m in done ==> m in Candidates(pool, At(pool, trace, q).blacklist, trace[q].now)
  {
    var order, done := trace[q].order, Contacts(pool, trace, q, k);
    hide At, Contacts, Planned, Valid, Candidates, Distinct;
    BeginIsPermutation(pool, trace, q);
    CallProgress(pool, trace, q, k);
    PlannedIsPrefix(pool, order, done);
    PrefixFacts(done, order);
  }

  lemma BeginIsPermutation(pool: Pool, trace: seq<Step>, q: nat)
    requires Valid(pool, trace) && q < |trace| && trace[q].Begin? && Distinct(pool.mirrors)
    ensures var candidates := Candidates(pool, At(pool, trace, q).blacklist, trace[q].now);
            Distinct(trace[q].order) && forall m :: m in trace[q].order ==> m in candidates
  {
    var candidates := Candidates(pool, At(pool, trace, q).blacklist, trace[q].now);
    assert Distinct(candidates);
    hide At, Candidates, Distinct, Next;
    StepAt(pool, trace, q);
    PermutationFacts(trace[q].order, candidates);
  }

  lemma PlannedIsPrefix(pool: Pool, order: seq<string>, done: seq<string>)
    requires done <= Planned(pool, order)
    ensures done <= order && |done| <= pool.cap
  {
  }

  lemma PrefixFacts(a: seq<string>, b: seq<string>)
    requires a <= b
    ensures Distinct(b) ==> Distinct(a)
    ensures forall m :: m in a ==> m in b
  {
  }

  lemma PermutationFacts(a: seq<string>, b: seq<string>)
    requires multiset(a) == multiset(b)
    ensures forall m :: m in a <==> m in b
    ensures Distinct(b) ==> Distinct(a)
  {
    forall m ensures m in a <==> m in b {
      assert m in multiset(a) <==> m in multiset(b);
    }
    if Distinct(b) {
      DistinctBag(a);
      DistinctBag(b);
    }
  }

  lemma {:induction false} DistinctBag(s: seq<string>)
    ensures Distinct(s) <==> forall m :: m in multiset(s) ==> multiset(s)[m] == 1
  {
    if s != [] {
      var n := |s| - 1;
      var last := s[n];
      assert s == s[..n] + [last];
      DistinctBag(s[..n]);
      assert multiset(s)[last] == multiset(s[..n])[last] + 1;
      if Distinct(s) {
        assert last !in s[..n];
      } else if forall m :: m in multiset(s) ==> multiset(s)[m] == 1 {
        forall m | m in multiset(s[..n]) ensures multiset(s[..n])[m] == 1 && m != last {
          assert multiset(s)[m] == 1;
        }
      }
    }
  }

  // ---------- blacklisted mirrors are left alone ----------

  predicate IsContact(trace: seq<Step>, p: nat) {
    p < |trace| && trace[p].Contact?
  }

  function Mirror(pool: Pool, trace: seq<Step>, p: nat): string
    requires Valid(pool, trace) && IsContact(trace, p)
  {
    StepAt(pool, trace, p);
    At(pool, trace, p).todo[trace[p].call][0]
  }

  predicate ContactOf(pool: Pool, trace: seq<Step>, p: nat, m: string)
    requires Valid(pool, trace)
  {
    IsContact(trace, p) && Mirror(pool, trace, p) == m
  }

  // Step l blacklists mirror m until time t.
  predicate Lists(pool: Pool, trace: seq<Step>, l: nat, m: string, t: int)
    requires Valid(pool, trace)
  {
    ContactOf(pool, trace, l, m) && trace[l].outcome == Listed(t)
  }

  // Step r begins a call that clears the blacklist.
  predicate ResetAt(pool: Pool, trace: seq<Step>, r: nat)
    requires Valid(pool, trace)
  {
    r < |trace| && trace[r].Begin? && Resets(pool, At(pool, trace, r).blacklist, trace[r].now)
  }

  predicate Listing(pool: Pool, trace: seq<Step>, r: nat, m: string)
    requires Valid(pool, trace)
  {
    ContactOf(pool, trace, r, m) && trace[r].outcome.Listed?
  }

  // The latest listing of m before n.
  ghost predicate LastListing(pool: Pool, trace: seq<Step>, r: nat, n: nat, m: string)
    requires Valid(pool, trace)
  {
    Listing(pool, trace, r, m) && r < n && forall s :: r < s < n ==> !Listing(pool, trace, s, m)
  }

  // Call q begins while the listing of m at l should still hold, and nothing was reset since.
  ghost predicate Covers(pool: Pool, trace: seq<Step>, l: nat, q: nat, m: string)
    requires Valid(pool, trace)
  {
    && Listing(pool, trace, l, m) && l < q < |trace| && trace[q].Begin? && trace[q].now <= trace[l].outcome.until
    && forall r :: l < r <= q ==> !ResetAt(pool, trace, r)
  }

  // A later listing of m, the last before q, that ends before q begins.
  ghost predicate Lapsed(pool: Pool, trace: seq<Step>, s: nat, q: nat, m: string)
    requires Valid(pool, trace)
  {
    && LastListing(pool, trace, s, q, m) && q < |trace| && trace[q].Begin?
    && trace[s].outcome.until < trace[q].now
  }

  predicate ClockRuns(trace: seq<Step>) {
    forall i, j :: 0 <= i < j < |trace| && trace[i].Begin? && trace[j].Begin? ==> trace[i].now <= trace[j].now
  }

  lemma {:induction false} ContactsGrow(pool: Pool, trace: seq<Step>, q: nat, j: nat, k: nat)
    requires Valid(pool, trace) && j <= k <= |trace|
    ensures Contacts(pool, trace, q, j) <= Contacts(pool, trace, q, k)
    decreases k
  {
    hide At, Next, Enabled;
    if j < k {
      ContactsGrow(pool, trace, q, j, k - 1);
    }
  }

  lemma ContactExtends(pool: Pool, trace: seq<Step>, p: nat)
    requires Valid(pool, trace) && IsContact(trace, p)
    ensures var q := trace[p].call;
            && Began(trace, q, p)
            && Contacts(pool, trace, q, p + 1) == Contacts(pool, trace, q, p) + [Mirror(pool, trace, p)]
  {
    hide At, Contacts, Planned;
    CallStep(pool, trace, trace[p].call, p);
    CallProgress(pool, trace, trace[p].call, p);
  }

  // A call contacts a mirror it did not contact before.
  lemma ContactIsNew(pool: Pool, trace: seq<Step>, p: nat)
    requires Valid(pool, trace) && Distinct(pool.mirrors) && IsContact(trace, p)
    ensures var q, m := trace[p].call, Mirror(pool, trace, p);
            && Began(trace, q, p)
            && m !in Contacts(pool, trace, q, p) && m in Contacts(pool, trace, q, p + 1)
  {
    var q, m := trace[p].call, Mirror(pool, trace, p);
    ContactExtends(pool, trace, p);
    hide At, Contacts, Mirror, Distinct, Valid, Candidates;
    ContactsOfCall(pool, trace, q, p + 1);
    DistinctAppend(Contacts(pool, trace, q, p), m);
    assert m in Contacts(pool, trace, q, p) + [m];
  }

  // Unless the call reset the blacklist, the mirror it contacts was not blacklisted when the call began.
  lemma ContactWasEligible(pool: Pool, trace: seq<Step>, p: nat)
    requires Valid(pool, trace) && Distinct(pool.mirrors) && IsContact(trace, p)
    ensures var q, m := trace[p].call, Mirror(pool, trace, p);
            && Began(trace, q, p)
            && (ResetAt(pool, trace, q) || !Blocked(At(pool, trace, q).blacklist, m, trace[q].now))
  {
    var q, m := trace[p].call, Mirror(pool, trace, p);
    ContactIsNew(pool, trace, p);
    hide At, Contacts, Mirror, Distinct, Resets, Blocked, Valid, Candidates, Eligible;
    ContactsOfCall(pool, trace, q, p + 1);
    CandidateIsFree(pool, At(pool, trace, q).blacklist, m, trace[q].now);
  }

  lemma CandidateIsFree(pool: Pool, b: Blacklist, m: string, now: int)
    requires m in Candidates(pool, b, now)
    ensures Resets(pool, b, now) || !Blocked(b, m, now)
  {
  }

  lemma ListingRecorded(pool: Pool, trace: seq<Step>, l: nat)
    requires Valid(pool, trace) && IsContact(trace, l) && trace[l].outcome.Listed?
    ensures var b := At(pool, trace, l + 1).blacklist;
            var m := Mirror(pool, trace, l);
            m in b && b[m] == trace[l].outcome.until > 0
  {
    StepAt(pool, trace, l);
    hide At;
  }

  lemma EntryKept(pool: Pool, trace: seq<Step>, k: nat, m: string)
    requires Valid(pool, trace) && k < |trace| && !Listing(pool, trace, k, m) && !ResetAt(pool, trace, k)
    ensures var b, b' := At(pool, trace, k).blacklist, At(pool, trace, k + 1).blacklist;
            (m in b <==> m in b') && (m in b ==> b[m] == b'[m])
  {
    StepAt(pool, trace, k);
    hide At, Planned;
  }

  // Without a reset, the blacklist holds the end of the latest listing.
  lemma {:induction false} LastListingHolds(pool: Pool, trace: seq<Step>, r: nat, n: nat, m: string)
    requires Valid(pool, trace) && n <= |trace| && LastListing(pool, trace, r, n, m)
    requires forall k :: r < k < n ==> !ResetAt(pool, trace, k)
    ensures var b := At(pool, trace, n).blacklist; m in b && b[m] == trace[r].outcome.until > 0
    decreases n
  {
    hide At, Enabled, Contacts, Resets;
    if n == r + 1 {
      ListingRecorded(pool, trace, r);
    } else {
      LastListingHolds(pool, trace, r, n - 1, m);
      EntryKept(pool, trace, n - 1, m);
    }
  }

  lemma {:induction false} FindLastListing(pool: Pool, trace: seq<Step>, l: nat, n: nat, m: string) returns (r: nat)
    requires Valid(pool, trace) && Listing(pool, trace, l, m) && l < n
    ensures l <= r && LastListing(pool, trace, r, n, m)
    decreases n
  {
    hide Listing;
    if n == l + 1 || Listing(pool, trace, n - 1, m) {
      r := n - 1;
    } else {
      r := FindLastListing(pool, trace, l, n - 1, m);
    }
  }

  // A listing that should still hold blocks the mirror exactly unless a later one has replaced it and lapsed.
  lemma BlockedUnlessLapsed(pool: Pool, trace: seq<Step>, l: nat, q: nat, m: string)
    requires Valid(pool, trace) && Covers(pool, trace, l, q, m)
    ensures Blocked(At(pool, trace, q).blacklist, m, trace[q].now) <==>
            !exists s :: l < s < q && Lapsed(pool, trace, s, q, m)
  {
    hide At, Mirror, ResetAt;
    var r := FindLastListing(pool, trace, l, q, m);
    LastListingHolds(pool, trace, r, q, m);
    if trace[r].outcome.until < trace[q].now {
      assert Lapsed(pool, trace, r, q, m);
    }
    forall s | l < s < q && Lapsed(pool, trace, s, q, m) ensures s == r {
    }
  }

  // So a call that begins meanwhile may contact the mirror exactly when such a listing has lapsed.
  lemma CandidateWhenLapsed(pool: Pool, trace: seq<Step>, l: nat, q: nat, m: string)
    requires Valid(pool, trace) && Distinct(pool.mirrors) && Covers(pool, trace, l, q, m)
    ensures m in Candidates(pool, At(pool, trace, q).blacklist, trace[q].now) <==>
            exists s :: l < s < q && Lapsed(pool, trace, s, q, m)
  {
    hide At, Mirror, Lapsed, Resets, Blocked, Valid, Distinct;
    BlockedUnlessLapsed(pool, trace, l, q, m);
    ContactIsInPool(pool, trace, l);
    assert !ResetAt(pool, trace, q);
  }

  lemma ContactIsInPool(pool: Pool, trace: seq<Step>, p: nat)
    requires Valid(pool, trace) && Distinct(pool.mirrors) && IsContact(trace, p)
    ensures Mirror(pool, trace, p) in pool.mirrors
  {
    ContactIsNew(pool, trace, p);
    hide At, Mirror, Contacts, Resets, Blocked, Valid, Distinct;
    ContactsOfCall(pool, trace, trace[p].call, p + 1);
  }

  // The call that made a lapsed listing was under way at l, or it began after l and m was not blocked then.
  lemma LapsedByCall(pool: Pool, trace: seq<Step>, l: nat, q: nat, m: string, s: nat)
    requires Valid(pool, trace) && Distinct(pool.mirrors) && ClockRuns(trace)
    requires Covers(pool, trace, l, q, m) && l < s < q && Lapsed(pool, trace, s, q, m)
    ensures var b := trace[s].call;
            b < l || (l < b < q && Covers(pool, trace, l, b, m)
                      && !Blocked(At(pool, trace, b).blacklist, m, trace[b].now))
  {
    hide At, Resets, Contacts;
    ContactWasEligible(pool, trace, s);
    assert trace[l].Contact? && trace[s].call != l;
  }

  // Whenever a listing is not honoured, a call already under way has relisted the mirror to a time that a
  // later call begins past, and that is where the listing is first not honoured.
  lemma {:induction false} FirstLapse(pool: Pool, trace: seq<Step>, l: nat, q: nat, m: string) returns (q': nat, s: nat)
    requires Valid(pool, trace) && Distinct(pool.mirrors) && ClockRuns(trace) && Covers(pool, trace, l, q, m)
    requires !Blocked(At(pool, trace, q).blacklist, m, trace[q].now)
    ensures q' <= q && Covers(pool, trace, l, q', m) && l < s < q' && Lapsed(pool, trace, s, q', m)
    ensures trace[s].call < l
    decreases q
  {
    hide At, Blocked, Mirror, ResetAt, Contacts, Valid;
    BlockedUnlessLapsed(pool, trace, l, q, m);
    s := var s: nat :| l < s < q && Lapsed(pool, trace, s, q, m); s;
    LapsedByCall(pool, trace, l, q, m, s);
    q' := q;
    if trace[s].call >= l {
      q', s := FirstLapse(pool, trace, l, trace[s].call, m);
    }
  }

  // Every listing keeps its mirror blocked until it ends or the blacklist is reset.
  ghost predicate Honoured(pool: Pool, trace: seq<Step>)
    requires Valid(pool, trace)
  {
    forall l: nat, q: nat, m :: Covers(pool, trace, l, q, m) ==>
      Blocked(At(pool, trace, q).blacklist, m, trace[q].now)
  }

  // Step s, by a call already under way at l, relists m to a time that call q begins past.
  ghost predicate Undercut(pool: Pool, trace: seq<Step>, l: nat, s: nat, q: nat, m: string)
    requires Valid(pool, trace)
  {
    Covers(pool, trace, l, q, m) && l < s && Lapsed(pool, trace, s, q, m) && trace[s].call < l
  }

  // Listings are honoured in a run exactly when none is undercut.
  lemma HonouredUnlessUndercut(pool: Pool, trace: seq<Step>)
    requires Valid(pool, trace) && Distinct(pool.mirrors) && ClockRuns(trace)
    ensures Honoured(pool, trace) <==> !exists l: nat, s: nat, q: nat, m :: Undercut(pool, trace, l, s, q, m)
  {
    hide At, Blocked, Mirror, ResetAt, Valid;
    forall l: nat, s: nat, q: nat, m | Undercut(pool, trace, l, s, q, m) ensures !Honoured(pool, trace) {
      BlockedUnlessLapsed(pool, trace, l, q, m);
    }
    forall l: nat, q: nat, m | Covers(pool, trace, l, q, m)
      ensures Blocked(At(pool, trace, q).blacklist, m, trace[q].now)
              || exists q': nat, s: nat :: Undercut(pool, trace, l, s, q', m)
    {
      if !Blocked(At(pool, trace, q).blacklist, m, trace[q].now) {
        var q', s := FirstLapse(pool, trace, l, q, m);
        assert Undercut(pool, trace, l, s, q', m);
      }
    }
  }

  // A mirror blacklisted until t, and later contacted by a call that began at or before t: some call reset
  // the blacklist meanwhile, or a call already under way relisted the mirror to a time that has passed.
  lemma Failover(pool: Pool, trace: seq<Step>, l: nat, q: nat, p: nat, m: string, t: int)
    requires Valid(pool, trace) && Distinct(pool.mirrors) && ClockRuns(trace)
    requires l < q && Began(trace, q, p) && trace[q].now <= t && Lists(pool, trace, l, m, t)
    requires ContactOf(pool, trace, p, m) && trace[p].call == q
    ensures (exists r :: l < r <= q && ResetAt(pool, trace, r))
            || exists s :: l < s < q && Listing(pool, trace, s, m) && trace[s].outcome.until < trace[q].now
                 && trace[s].call < l
  {
    hide At, ResetAt, Contacts, Valid;
    ContactWasEligible(pool, trace, p);
    if forall r :: l < r <= q ==> !ResetAt(pool, trace, r) {
      var q', s := FirstLapse(pool, trace, l, q, m);
      assert trace[q'].now <= trace[q].now;
    }
  }

  // ---------- calls one after another ----------

  // No call begins between the beginning of a call and its last contact.
  predicate OneAtATime(trace: seq<Step>) {
    forall r, x :: 0 <= r < |trace| && trace[r].Contact? && trace[r].call < x < r ==> trace[x].Contact?
  }

  lemma NoOvertaking(pool: Pool, trace: seq<Step>, l: nat, r: nat, m: string)
    requires Valid(pool, trace) && Distinct(pool.mirrors) && OneAtATime(trace)
    requires l < r && ContactOf(pool, trace, l, m) && ContactOf(pool, trace, r, m)
    ensures trace[r].call >= l
  {
    hide At, Contacts;
    var b, c := trace[r].call, trace[l].call;
    ContactIsNew(pool, trace, l);
    ContactIsNew(pool, trace, r);
    if b == c {
      ContactsGrow(pool, trace, b, l + 1, r);
    }
  }

  // When calls do not overlap, every listing is honoured ...
  lemma HonouredInTurn(pool: Pool, trace: seq<Step>)
    requires Valid(pool, trace) && Distinct(pool.mirrors) && ClockRuns(trace) && OneAtATime(trace)
    ensures Honoured(pool, trace)
  {
    hide At, Honoured, Mirror, Valid;
    HonouredUnlessUndercut(pool, trace);
    forall l: nat, s: nat, q: nat, m ensures !Undercut(pool, trace, l, s, q, m) {
      if Undercut(pool, trace, l, s, q, m) {
        NoOvertaking(pool, trace, l, s, m);
      }
    }
  }

  // ... so a mirror blacklisted until t is contacted by a call that begins at or before t only if that call or
  // one before it has reset the blacklist since.
  lemma FailoverInTurn(pool: Pool, trace: seq<Step>, l: nat, q: nat, p: nat, m: string, t: int)
    requires Valid(pool, trace) && Distinct(pool.mirrors) && ClockRuns(trace) && OneAtATime(trace)
    requires l < q && Began(trace, q, p) && trace[q].now <= t && Lists(pool, trace, l, m, t)
    requires ContactOf(pool, trace, p, m) && trace[p].call == q
    ensures exists r :: l < r <= q && ResetAt(pool, trace, r)
  {
    hide At, ResetAt, Mirror, Valid;
    ContactWasEligible(pool, trace, p);
    HonouredInTurn(pool, trace);
    assert !Covers(pool, trace, l, q, m) || ResetAt(pool, trace, q);
  }

  // ---------- overlapping calls ----------

  lemma Extend(pool: Pool, trace: seq<Step>, step: Step)
    requires Valid(pool, trace) && Enabled(pool, Run(pool, trace), step)
    ensures Valid(pool, trace + [step])
    ensures Run(pool, trace + [step]) == Next(pool, Run(pool, trace), step, |trace|)
  {
    hide Enabled, Next;
    assert (trace + [step])[..|trace|] == trace;
  }

  lemma {:induction false} AllEligible(b: Blacklist, mirrors: seq<string>, now: int)
    requires forall m :: m in mirrors ==> !Blocked(b, m, now)
    ensures Eligible(b, mirrors, now) == mirrors
  {
    if mirrors != [] {
      var n := |mirrors| - 1;
      assert mirrors == mirrors[..n] + [mirrors[n]];
      AllEligible(b, mirrors[..n], now);
    }
  }

  // Two overlapping calls: the second blacklists the first mirror for two hours, then the first, timing out on
  // it, shortens that to a minute.
  function Overlap(pool: Pool): seq<Step> {
    [Begin(1, pool.mirrors), Begin(2, pool.mirrors), Contact(1, Listed(7200002)), Contact(0, Listed(60001)),
     Begin(100000, pool.mirrors), Contact(4, Answered)]
  }

  function OverlapMachine(pool: Pool, k: nat): Machine
    requires pool.mirrors != [] && pool.cap > 0
  {
    var all, m := Planned(pool, pool.mirrors), pool.mirrors[0];
    if k == 0 then START
    else if k == 1 then Machine(map[], map[0 := all])
    else if k == 2 then Machine(map[], map[0 := all, 1 := all])
    else if k == 3 then Machine(map[m := 7200002], map[0 := all, 1 := all[1..]])
    else if k == 4 then Machine(map[m := 60001], map[0 := all[1..], 1 := all[1..]])
    else Machine(map[m := 60001], map[0 := all[1..], 1 := all[1..], 4 := all])
  }

  lemma BeginWithAll(pool: Pool, m: Machine, now: int, at: nat)
    requires pool.least <= |pool.mirrors| && forall x :: x in pool.mirrors ==> !Blocked(m.blacklist, x, now)
    ensures Enabled(pool, m, Begin(now, pool.mirrors)) && !Resets(pool, m.blacklist, now)
    ensures Next(pool, m, Begin(now, pool.mirrors), at)
            == Machine(m.blacklist, m.todo[at := Planned(pool, pool.mirrors)])
  {
    AllEligible(m.blacklist, pool.mirrors, now);
  }

  lemma OverlapStep(pool: Pool, k: nat)
    requires pool.mirrors != [] && pool.least <= |pool.mirrors| && pool.cap > 0 && k < 5
    ensures Enabled(pool, OverlapMachine(pool, k), Overlap(pool)[k])
    ensures Next(pool, OverlapMachine(pool, k), Overlap(pool)[k], k) == OverlapMachine(pool, k + 1)
  {
    hide Eligible;
    if k == 0 {
      BeginWithAll(pool, START, 1, 0);
    } else if k == 1 {
      BeginWithAll(pool, OverlapMachine(pool, 1), 2, 1);
    } else if k == 4 {
      BeginWithAll(pool, OverlapMachine(pool, 4), 100000, 4);
    }
  }

  lemma {:induction false} OverlapRuns(pool: Pool, k: nat)
    requires pool.mirrors != [] && pool.least <= |pool.mirrors| && pool.cap > 0 && k <= 5
    ensures Valid(pool, Overlap(pool)[..k]) && Run(pool, Overlap(pool)[..k]) == OverlapMachine(pool, k)
  {
    if k == 0 {
      Empty(pool);
    } else {
      hide Enabled, Next, Valid, Run, OverlapMachine;
      OverlapRuns(pool, k - 1);
      OverlapStep(pool, k - 1);
      Extend(pool, Overlap(pool)[..k - 1], Overlap(pool)[k - 1]);
      assert Overlap(pool)[..k] == Overlap(pool)[..k - 1] + [Overlap(pool)[k - 1]];
    }
  }

  lemma OverlapAt(pool: Pool, k: nat)
    requires pool.mirrors != [] && pool.least <= |pool.mirrors| && pool.cap > 0 && k <= 5
    ensures Valid(pool, Overlap(pool)) && At(pool, Overlap(pool), k) == OverlapMachine(pool, k)
  {
    var trace := Overlap(pool);
    hide Run, Valid;
    OverlapRuns(pool, k);
    OverlapRuns(pool, 5);
    Extend(pool, trace[..5], trace[5]);
    assert trace == trace[..5] + [trace[5]];
  }

  lemma OverlapNeverResets(pool: Pool)
    requires pool.mirrors != [] && pool.least <= |pool.mirrors| && pool.cap > 0
    requires Valid(pool, Overlap(pool))
    ensures forall r :: 0 <= r <= 5 ==> !ResetAt(pool, Overlap(pool), r)
  {
    hide Run, Valid, Planned, Resets, At;
    OverlapAt(pool, 0);
    OverlapAt(pool, 1);
    OverlapAt(pool, 4);
    BeginWithAll(pool, OverlapMachine(pool, 0), 1, 0);
    BeginWithAll(pool, OverlapMachine(pool, 1), 2, 1);
    BeginWithAll(pool, OverlapMachine(pool, 4), 100000, 4);
  }

  // A call that begins within those two hours contacts the mirror although nothing was reset.
  lemma OverlapShortensABlacklisting(pool: Pool)
    requires pool.mirrors != [] && pool.least <= |pool.mirrors| && pool.cap > 0
    ensures var trace, m := Overlap(pool), pool.mirrors[0];
            && Valid(pool, trace) && ClockRuns(trace)
            && Lists(pool, trace, 2, m, 7200002) && ContactOf(pool, trace, 5, m)
            && trace[5].call == 4 && trace[4].now <= 7200002
            && (forall r :: 0 <= r <= 5 ==> !ResetAt(pool, trace, r))
            && Undercut(pool, trace, 2, 3, 4, m)
  {
    hide Run, Valid, Resets, At, ResetAt;
    OverlapAt(pool, 2);
    OverlapAt(pool, 3);
    OverlapAt(pool, 5);
    OverlapNeverResets(pool);
  }

  lemma Empty(pool: Pool)
    ensures Valid(pool, []) && Run(pool, []) == START
  {
  }
}
