/** The regional proxy cache: a map in insertion order that drops its oldest key past 2000 entries. */
module RegionalCache {
  import opened Sequences
  import opened Wrappers

  // An entry is the write that made it.
  datatype Write = Write(key: string, data: string, time: int)

  const CAPACITY := 2000
  const TTL := 1000 * 60 * 60 * 3

  function Keys(entries: seq<Write>): (keys: seq<string>)
    ensures |keys| == |entries|
  {
    if entries == [] then [] else [entries[0].key] + Keys(entries[1..])
  }

  function Lookup(entries: seq<Write>, key: string): Option<Write> {
    if entries == [] then None
    else if entries[0].key == key then Some(entries[0])
    else Lookup(entries[1..], key)
  }

  // Setting a key that is present keeps its place; a new key goes last.
  function Put(entries: seq<Write>, w: Write): seq<Write> {
    if entries == [] then [w]
    else if entries[0].key == w.key then [w] + entries[1..]
    else [entries[0]] + Put(entries[1..], w)
  }

  // The oldest key is dropped unless it is the empty string, which the code takes for no key.
  function Evict(entries: seq<Write>): seq<Write> {
    if Evicts(entries) then entries[1..] else entries
  }

  predicate Evicts(entries: seq<Write>) {
    |entries| > CAPACITY && entries[0].key != ""
  }

  // What the cache holds after a history of writes.
  function Held(log: seq<Write>): seq<Write> {
    if log == [] then [] else Evict(Put(Held(log[..|log| - 1]), log[|log| - 1]))
  }

  class Cache {
    var entries: seq<Write>
    ghost var log: seq<Write>

    ghost predicate Valid() reads this {
      entries == Held(log)
    }

    constructor ()
      ensures Valid() && log == []
    {
      entries, log := [], [];
    }

    method Get(key: string, now: int) returns (data: Option<string>)
      requires Valid()
      ensures var w := LastWrite(log, key);
              data == if key in Keys(entries) && w.Some? && now - w.value.time < TTL then Some(w.value.data) else None
    {
      LookupFacts(entries, key);
      HeldIsLastWrite(log, key);
      var entry := Lookup(entries, key);
      if entry.Some? && now - entry.value.time < TTL {
        return Some(entry.value.data);
      }
      data := None;
    }

    method Set(key: string, data: string, now: int)
      requires Valid()
      modifies this
      ensures Valid() && log == old(log) + [Write(key, data, now)]
      ensures Lookup(entries, key) == Some(Write(key, data, now))
    {
      ghost var before := entries;
      var w := Write(key, data, now);
      JustWrittenIsHeld(log, w);
      log := log + [w];
      assert log[..|log| - 1] == old(log);
      entries := Put(entries, w);
      if |entries| > CAPACITY {
        var firstKey := entries[0].key;
        if firstKey != "" {
          entries := entries[1..];
        }
      }
    }
  }

  // ---------- one write ----------

  lemma {:induction false} LookupFacts(entries: seq<Write>, key: string)
    ensures Lookup(entries, key).Some? <==> key in Keys(entries)
    ensures var w := Lookup(entries, key); w.Some? ==> w.value in entries && w.value.key == key
  {
    if entries != [] {
      LookupFacts(entries[1..], key);
    }
  }

  lemma {:induction false} PutKeys(entries: seq<Write>, w: Write)
    ensures Keys(Put(entries, w)) == if w.key in Keys(entries) then Keys(entries) else Keys(entries) + [w.key]
  {
    if entries != [] && entries[0].key != w.key {
      PutKeys(entries[1..], w);
      assert ([entries[0]] + Put(entries[1..], w))[1..] == Put(entries[1..], w);
    } else if entries != [] {
      assert ([w] + entries[1..])[1..] == entries[1..];
    }
  }

  lemma {:induction false} PutLookup(entries: seq<Write>, w: Write, key: string)
    ensures Lookup(Put(entries, w), key) == if key == w.key then Some(w) else Lookup(entries, key)
  {
    if entries != [] && entries[0].key != w.key {
      PutLookup(entries[1..], w, key);
      assert ([entries[0]] + Put(entries[1..], w))[1..] == Put(entries[1..], w);
    } else if entries != [] {
      assert ([w] + entries[1..])[1..] == entries[1..];
    }
  }

  // ---------- histories ----------

  // The keys in the order in which they entered the cache; a key that was evicted may enter again.
  function Entered(log: seq<Write>): seq<string> {
    if log == [] then [] else
      var before, w := log[..|log| - 1], log[|log| - 1];
      Entered(before) + if w.key in Keys(Held(before)) then [] else [w.key]
  }

  function LastWrite(log: seq<Write>, key: string): Option<Write> {
    if log == [] then None
    else if log[|log| - 1].key == key then Some(log[|log| - 1])
    else LastWrite(log[..|log| - 1], key)
  }

  // Some write brought a new key to a full cache whose oldest key was the empty string.
  predicate Overflowed(log: seq<Write>) {
    log != [] &&
      var before, w := log[..|log| - 1], log[|log| - 1];
      Overflowed(before)
      || (|Held(before)| == CAPACITY && Held(before)[0].key == "" && w.key !in Keys(Held(before)))
  }

  // The cache holds more than 2000 entries exactly when such a write has happened; from then on the empty key
  // stays the oldest.
  lemma {:induction false} BoundedUnlessOverflowed(log: seq<Write>)
    ensures |Held(log)| > CAPACITY <==> Overflowed(log)
    ensures Overflowed(log) ==> Held(log)[0].key == ""
  {
    if log != [] {
      var before, w := log[..|log| - 1], log[|log| - 1];
      BoundedUnlessOverflowed(before);
      hide Held, Keys;
      HeldStep(before, w);
      assert log == before + [w];
      var held := Held(before);
      PutKeys(held, w);
      PutHead(held, w);
    }
  }

  lemma HeldStep(before: seq<Write>, w: Write)
    ensures Held(before + [w]) == Evict(Put(Held(before), w))
  {
    assert (before + [w])[..|before|] == before;
  }

  lemma PutHead(entries: seq<Write>, w: Write)
    ensures |Put(entries, w)| == |entries| + if w.key in Keys(entries) then 0 else 1
    ensures Put(entries, w)[0].key == if entries == [] then w.key else entries[0].key
  {
    PutKeys(entries, w);
  }

  lemma {:induction false} HeldWereWritten(log: seq<Write>)
    ensures forall e :: e in Held(log) ==> e in log
  {
    if log != [] {
      var before, w := log[..|log| - 1], log[|log| - 1];
      HeldWereWritten(before);
      hide Held, Put;
      HeldStep(before, w);
      assert log == before + [w];
      PutMembers(Held(before), w);
    }
  }

  lemma {:induction false} PutMembers(entries: seq<Write>, w: Write)
    ensures forall e :: e in Put(entries, w) ==> e in entries || e == w
  {
    if entries != [] {
      PutMembers(entries[1..], w);
    }
  }

  // Without a write of the empty key the cache never holds more than its bound.
  lemma {:induction false} NeverOverflows(log: seq<Write>)
    requires forall w :: w in log ==> w.key != ""
    ensures !Overflowed(log) && |Held(log)| <= CAPACITY
  {
    BoundedUnlessOverflowed(log);
    if log != [] {
      var before := log[..|log| - 1];
      NeverOverflows(before);
      HeldWereWritten(before);
      hide Held;
      if Held(before) != [] {
        assert Held(before)[0] in before && log == before + [log[|log| - 1]];
      }
    }
  }

  // The keys that were evicted, in that order.
  function Evicted(log: seq<Write>): seq<string> {
    if log == [] then [] else
      var before := log[..|log| - 1];
      var put := Put(Held(before), log[|log| - 1]);
      Evicted(before) + if Evicts(put) then [put[0].key] else []
  }

  lemma EvictedStep(put: seq<Write>, evicted: seq<string>)
    ensures evicted + Keys(put) == evicted + (if Evicts(put) then [put[0].key] else []) + Keys(Evict(put))
  {
    if Evicts(put) {
      Regroup(evicted, [put[0].key], Keys(put[1..]));
    }
  }

  lemma FifoStep(evicted: seq<string>, held: seq<Write>, entered: seq<string>, w: Write)
    requires evicted + Keys(held) == entered
    ensures var put := Put(held, w);
            evicted + (if Evicts(put) then [put[0].key] else []) + Keys(Evict(put))
            == entered + (if w.key in Keys(held) then [] else [w.key])
  {
    PutKeys(held, w);
    EvictedStep(Put(held, w), evicted);
    hide Put, Keys, Evicts;
    Regroup(evicted, Keys(held), [w.key]);
  }

  lemma StaysFull(held: seq<Write>, w: Write)
    ensures |held| >= CAPACITY || Evicts(Put(held, w)) ==> |Evict(Put(held, w))| >= CAPACITY
  {
    hide Keys;
    PutHead(held, w);
  }

  // Eviction is in the order of entry: the keys evicted and then the keys held are all that entered, in order;
  // none is evicted before the cache is full.
  lemma {:induction false} FirstInFirstOut(log: seq<Write>)
    ensures Evicted(log) + Keys(Held(log)) == Entered(log)
    ensures Evicted(log) != [] ==> |Held(log)| >= CAPACITY
  {
    if log != [] {
      var before, w := log[..|log| - 1], log[|log| - 1];
      FirstInFirstOut(before);
      hide Held, Put, Keys, Evicts, Evict;
      HeldStep(before, w);
      assert log == before + [w];
      FifoStep(Evicted(before), Held(before), Entered(before), w);
      StaysFull(Held(before), w);
    }
  }

  lemma PutDistinct(entries: seq<Write>, w: Write)
    requires Distinct(Keys(entries))
    ensures Distinct(Keys(Put(entries, w)))
  {
    PutKeys(entries, w);
  }

  lemma EvictDistinct(entries: seq<Write>)
    requires Distinct(Keys(entries))
    ensures Distinct(Keys(Evict(entries)))
  {
    if Evicts(entries) {
      assert Keys(entries[1..]) == Keys(entries)[1..];
    }
  }

  lemma {:induction false} KeysDistinct(log: seq<Write>)
    ensures Distinct(Keys(Held(log)))
  {
    if log != [] {
      var before, w := log[..|log| - 1], log[|log| - 1];
      KeysDistinct(before);
      hide *;
      PutDistinct(Held(before), w);
      EvictDistinct(Put(Held(before), w));
      HeldStep(before, w);
      assert log == before + [w];
    } else {
      assert Distinct([]);
    }
  }

  lemma EvictLookup(entries: seq<Write>, key: string)
    requires key in Keys(Evict(entries)) && Distinct(Keys(entries))
    ensures Lookup(Evict(entries), key) == Lookup(entries, key)
  {
    if Evicts(entries) {
      var rest := Keys(entries[1..]);
      var i :| 0 <= i < |rest| && rest[i] == key;
      assert Keys(entries)[0] != Keys(entries)[i + 1];
    }
  }

  lemma HeldLookup(before: seq<Write>, w: Write, key: string)
    requires key in Keys(Held(before + [w])) && key != w.key
    ensures key in Keys(Held(before)) && Lookup(Held(before + [w]), key) == Lookup(Held(before), key)
  {
    KeysDistinct(before);
    hide *;
    var put := Put(Held(before), w);
    HeldStep(before, w);
    PutDistinct(Held(before), w);
    EvictLookup(put, key);
    PutLookup(Held(before), w, key);
    LookupFacts(Evict(put), key);
    LookupFacts(Held(before), key);
  }

  lemma HeadKey(entries: seq<Write>)
    ensures entries != [] ==> entries[0].key in Keys(entries)
  {
  }

  // The entry just written is never the one that is evicted.
  lemma JustWrittenIsHeld(before: seq<Write>, w: Write)
    ensures Lookup(Held(before + [w]), w.key) == Some(w)
  {
    var held := Held(before);
    BoundedUnlessOverflowed(before);
    HeldStep(before, w);
    hide Held, Overflowed, Put, Keys;
    PutLookup(held, w, w.key);
    PutHead(held, w);
    if Evicts(Put(held, w)) {
      HeadKey(held);
    }
  }

  // What is held under a key is the last value written to it.
  lemma {:induction false} HeldIsLastWrite(log: seq<Write>, key: string)
    ensures key in Keys(Held(log)) ==> Lookup(Held(log), key) == LastWrite(log, key)
  {
    if log != [] && key in Keys(Held(log)) {
      var before, w := log[..|log| - 1], log[|log| - 1];
      HeldIsLastWrite(before, key);
      hide Held, Keys, Lookup;
      assert log == before + [w];
      JustWrittenIsHeld(before, w);
      if key != w.key {
        HeldLookup(before, w, key);
      }
    }
  }

  // ---------- unbounded growth ----------

  function Repeated(n: nat): string {
    if n == 0 then "" else Repeated(n - 1) + "x"
  }

  function Growing(n: nat): seq<Write> {
    if n == 0 then [] else Growing(n - 1) + [Write(Repeated(n - 1), "", 0)]
  }

  lemma {:induction false} PutNew(entries: seq<Write>, w: Write)
    requires w.key !in Keys(entries)
    ensures Put(entries, w) == entries + [w]
  {
    if entries != [] {
      PutNew(entries[1..], w);
    }
  }

  lemma {:induction false} GrowingKeys(n: nat)
    ensures |Repeated(n)| == n && |Growing(n)| == n
    ensures n > 0 ==> Growing(n)[0].key == ""
    ensures forall e :: e in Growing(n) ==> |e.key| < n
  {
    if n > 0 {
      GrowingKeys(n - 1);
    }
  }

  // With the empty key written first, every later key is kept, however many there are.
  lemma {:induction false} GrowsWithoutBound(n: nat)
    ensures Held(Growing(n)) == Growing(n) && |Growing(n)| == n
  {
    if n > 0 {
      var before, w := Growing(n - 1), Write(Repeated(n - 1), "", 0);
      GrowsWithoutBound(n - 1);
      GrowingKeys(n - 1);
      GrowingKeys(n);
      LookupFacts(before, w.key);
      hide Held, Repeated, Keys;
      HeldStep(before, w);
      PutNew(before, w);
    }
  }
}
