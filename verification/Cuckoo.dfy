/** Cuckoo hashing with random-walk eviction.  The hash family and the results
    of rand() are arbitrary functions; every theorem holds for all of them. */
module Cuckoo {
  import opened Counting

  /** Hash values are ints other than INT_MIN, whose absolute value overflows. */
  type HashValue = x: int | -0x8000_0000 < x < 0x8000_0000

  type HashFn = (int, int) -> HashValue

  /** C's % on ints: the result has the sign of the dividend. */
  function TruncMod(a: int, n: nat): int
    requires n > 0
  {
    if a >= 0 then a % n else -((-a) % n)
  }

  function Abs(a: int): nat {
    if a >= 0 then a else -a
  }

  function FastMod(input: nat, ceil: nat): nat
    requires ceil > 0
  {
    if input >= ceil then input % ceil else input
  }

  function HashThis(func: HashFn, key: int, rand: int, length: nat): nat
    requires length > 0
  {
    FastMod(Abs(func(rand, key)), length)
  }

  /** The hash is the absolute value modulo the length, which is also the
      absolute value of C's remainder. */
  lemma HashIsAbsoluteRemainder(func: HashFn, key: int, rand: int, length: nat)
    requires length > 0
    ensures var v := func(rand, key);
      HashThis(func, key, rand, length) == (if v < 0 then -v else v) % length < length
    ensures var v := func(rand, key);
            var r := TruncMod(v, length);
      && HashThis(func, key, rand, length) == (if r < 0 then -r else r)
      && (r != 0 ==> (r < 0 <==> v < 0)) && exists q :: v == q * length + r
  {
    var v := func(rand, key);
    FastModIsMod(Abs(v), length);
    if v >= 0 {
      assert v == (v / length) * length + TruncMod(v, length);
    } else {
      assert v == (-((-v) / length)) * length + TruncMod(v, length);
    }
  }

  lemma FastModIsMod(input: nat, ceil: nat)
    requires ceil > 0
    ensures FastMod(input, ceil) == input % ceil < ceil
  {
  }

  /** A table cell: the key, and the second field, which is a leftover counter
      and not the hash function that was used. */
  datatype Entry = Entry(first: int, second: int)

  datatype Config = Config(w: nat, sizes: seq<nat>, rands: seq<int>, maxLoop: nat, func: HashFn) {
    predicate Valid() {
      && w >= 1 && |rands| == w && |sizes| >= 1 && maxLoop >= 1
      && forall t :: 0 <= t < |sizes| ==> sizes[t] >= 1
    }

    /** The position of a key in table t under hash function j. */
    function Position(key: int, t: nat, j: nat): nat
      requires Valid() && t < |sizes| && j < w
      ensures Position(key, t, j) < sizes[t]
    {
      HashIsAbsoluteRemainder(func, key, rands[j], sizes[t]);
      HashThis(func, key, rands[j], sizes[t])
    }

    /** A position in terms of the hash values alone. */
    lemma PositionIsHash(key: int, t: nat, j: nat)
      requires Valid() && t < |sizes| && j < w
      ensures var v := func(rands[j], key); Position(key, t, j) == (if v < 0 then -v else v) % sizes[t]
    {
      HashIsAbsoluteRemainder(func, key, rands[j], sizes[t]);
    }

    /** Some hash function sends the key to position p of table t. */
    predicate IsHome(key: int, t: nat, p: nat)
      requires Valid() && t < |sizes|
    {
      exists j :: 0 <= j < w && Position(key, t, j) == p
    }
  }

  datatype Store = Store(tables: seq<seq<Entry>>, used: seq<seq<bool>>)

  predicate Shaped(cfg: Config, st: Store) {
    && |st.tables| == |st.used| == |cfg.sizes|
    && forall t :: 0 <= t < |cfg.sizes| ==> |st.tables[t]| == |st.used[t]| == cfg.sizes[t]
  }

  function Put(st: Store, t: nat, p: nat, e: Entry): Store
    requires t < |st.tables| && t < |st.used| && p < |st.tables[t]| && p < |st.used[t]|
  {
    Store(st.tables[t := st.tables[t][p := e]], st.used[t := st.used[t][p := true]])
  }

  datatype Placed =
    | Stored(count: nat, store: Store, drawn: nat)
    | GaveUp(lost: int, store: Store, drawn: nat)

  /** One insertion: draws is the stream of rand() results, drawn how many have
      been consumed.  On giving up, the key in hand is lost. */
  function PlaceIn(cfg: Config, st: Store, key: int, counter: int, t: nat, cnt: nat, draws: nat -> nat, drawn: nat)
    : Placed
    requires cfg.Valid() && Shaped(cfg, st) && t < |cfg.sizes| && cnt < cfg.maxLoop
    decreases cfg.maxLoop - cnt
  {
    var p := cfg.Position(key, t, FastMod(draws(drawn), cfg.w));
    var after := Put(st, t, p, Entry(key, counter));
    if !st.used[t][p] then
      Stored(cnt, after, drawn + 1)
    else if cnt + 1 == cfg.maxLoop then
      GaveUp(key, st, drawn + 1)
    else
      var evicted := st.tables[t][p];
      PlaceIn(cfg, after, evicted.first, (evicted.second + 1) % cfg.w, (t + 1) % |cfg.sizes|, cnt + 1, draws, drawn + 1)
  }

  // ---- What every run of place keeps ----

  /** Slots that hold a key of the given collection. */
  ghost function Held(st: Store, keys: int -> bool): set<(nat, nat)>
  {
    set t: nat, p: nat | t < |st.tables| && t < |st.used| && p < |st.tables[t]| && p < |st.used[t]|
                         && st.used[t][p] && keys(st.tables[t][p].first) :: (t, p)
  }

  /** The collection of all keys. */
  function Any(): int -> bool {
    k => true
  }

  ghost function Occupied(st: Store): set<(nat, nat)> {
    Held(st, Any())
  }

  function One(b: bool): nat {
    if b then 1 else 0
  }

  /** Every stored key sits where one of its hash functions sends it. */
  ghost predicate AtHome(cfg: Config, st: Store)
    requires cfg.Valid() && Shaped(cfg, st)
  {
    forall t, p :: 0 <= t < |cfg.sizes| && 0 <= p < cfg.sizes[t] && st.used[t][p] ==>
      cfg.IsHome(st.tables[t][p].first, t, p)
  }

  lemma CountSplit(slots: set<(nat, nat)>, slot: (nat, nat))
    ensures |slots| == |slots - {slot}| + One(slot in slots)
  {
  }

  /** Overwriting one cell moves the count of held keys by the key that came
      and the key that went. */
  lemma PutCounts(st: Store, t: nat, p: nat, e: Entry, keys: int -> bool)
    requires t < |st.tables| && t < |st.used| && p < |st.tables[t]| && p < |st.used[t]|
    ensures |Held(Put(st, t, p, e), keys)| + One(st.used[t][p] && keys(st.tables[t][p].first))
         == |Held(st, keys)| + One(keys(e.first))
  {
    hide Held, Put;
    PutElsewhere(st, t, p, e, keys);
    CountSplit(Held(st, keys), (t, p));
    CountSplit(Held(Put(st, t, p, e), keys), (t, p));
  }

  lemma PutElsewhere(st: Store, t: nat, p: nat, e: Entry, keys: int -> bool)
    requires t < |st.tables| && t < |st.used| && p < |st.tables[t]| && p < |st.used[t]|
    ensures Held(Put(st, t, p, e), keys) - {(t, p)} == Held(st, keys) - {(t, p)}
    ensures (t, p) in Held(Put(st, t, p, e), keys) <==> keys(e.first)
    ensures (t, p) in Held(st, keys) <==> st.used[t][p] && keys(st.tables[t][p].first)
  {
  }

  /** Conservation, for every collection of keys: the stored keys together with
      the key in hand are kept by every eviction; giving up loses exactly one key. */
  lemma {:induction false} PlaceConserves(cfg: Config, st: Store, key: int, counter: int, t: nat, cnt: nat,
                                          draws: nat -> nat, drawn: nat, keys: int -> bool)
    requires cfg.Valid() && Shaped(cfg, st) && t < |cfg.sizes| && cnt < cfg.maxLoop
    ensures var r := PlaceIn(cfg, st, key, counter, t, cnt, draws, drawn);
      && Shaped(cfg, r.store)
      && |Held(r.store, keys)| + One(r.GaveUp? && keys(r.lost)) == |Held(st, keys)| + One(keys(key))
    decreases cfg.maxLoop - cnt
  {
    hide Held;
    var p := cfg.Position(key, t, FastMod(draws(drawn), cfg.w));
    PutCounts(st, t, p, Entry(key, counter), keys);
    if st.used[t][p] && cnt + 1 != cfg.maxLoop {
      var evicted := st.tables[t][p];
      PlaceConserves(cfg, Put(st, t, p, Entry(key, counter)), evicted.first, (evicted.second + 1) % cfg.w,
                     (t + 1) % |cfg.sizes|, cnt + 1, draws, drawn + 1, keys);
    }
  }

  /** A stored key gains exactly one slot; giving up gains none. */
  lemma PlaceGainsOneSlot(cfg: Config, st: Store, key: int, counter: int, t: nat, cnt: nat,
                          draws: nat -> nat, drawn: nat)
    requires cfg.Valid() && Shaped(cfg, st) && t < |cfg.sizes| && cnt < cfg.maxLoop
    ensures var r := PlaceIn(cfg, st, key, counter, t, cnt, draws, drawn);
      |Occupied(r.store)| == |Occupied(st)| + One(r.Stored?)
  {
    hide Held, PlaceIn;
    PlaceConserves(cfg, st, key, counter, t, cnt, draws, drawn, Any());
  }

  ghost predicate UsedStaysUsed(st: Store, st': Store) {
    forall t, p :: 0 <= t < |st.used| && 0 <= p < |st.used[t]| && st.used[t][p] ==>
      t < |st'.used| && p < |st'.used[t]| && st'.used[t][p]
  }

  lemma PutKeepsHomes(cfg: Config, st: Store, t: nat, p: nat, e: Entry)
    requires cfg.Valid() && Shaped(cfg, st) && t < |cfg.sizes| && p < cfg.sizes[t] && cfg.IsHome(e.first, t, p)
    ensures var st' := Put(st, t, p, e);
      && Shaped(cfg, st') && UsedStaysUsed(st, st')
      && (AtHome(cfg, st) ==> AtHome(cfg, st'))
      && (st.used[t][p] ==> st'.used == st.used)
  {
    if st.used[t][p] {
      assert st.used[t][p := true] == st.used[t];
    }
  }

  /** Every key stays at home, used slots never become free, and giving up
      leaves the occupancy as it was. */
  lemma {:induction false} PlaceKeepsHomes(cfg: Config, st: Store, key: int, counter: int, t: nat, cnt: nat,
                                           draws: nat -> nat, drawn: nat)
    requires cfg.Valid() && Shaped(cfg, st) && t < |cfg.sizes| && cnt < cfg.maxLoop
    ensures var r := PlaceIn(cfg, st, key, counter, t, cnt, draws, drawn);
      && Shaped(cfg, r.store) && UsedStaysUsed(st, r.store)
      && (AtHome(cfg, st) ==> AtHome(cfg, r.store))
      && (r.GaveUp? ==> r.store.used == st.used)
    decreases cfg.maxLoop - cnt
  {
    hide AtHome, Put;
    var j := FastMod(draws(drawn), cfg.w);
    FastModIsMod(draws(drawn), cfg.w);
    var p := cfg.Position(key, t, j);
    assert cfg.IsHome(key, t, p);
    var after := Put(st, t, p, Entry(key, counter));
    PutKeepsHomes(cfg, st, t, p, Entry(key, counter));
    if st.used[t][p] && cnt + 1 != cfg.maxLoop {
      var evicted := st.tables[t][p];
      PlaceKeepsHomes(cfg, after, evicted.first, (evicted.second + 1) % cfg.w,
                      (t + 1) % |cfg.sizes|, cnt + 1, draws, drawn + 1);
    }
  }

  /** The count of a stored key is the number of evictions: every iteration
      draws once, and all but the last evict.  It stays below the limit, and
      giving up means that the limit was reached. */
  lemma {:induction false} PlaceCountsEvictions(cfg: Config, st: Store, key: int, counter: int, t: nat, cnt: nat,
                                                draws: nat -> nat, drawn: nat)
    requires cfg.Valid() && Shaped(cfg, st) && t < |cfg.sizes| && cnt < cfg.maxLoop
    ensures match PlaceIn(cfg, st, key, counter, t, cnt, draws, drawn)
      case Stored(count, _, drawn') => cnt <= count < cfg.maxLoop && count - cnt == drawn' - drawn - 1
      case GaveUp(_, _, drawn') => drawn' - drawn == cfg.maxLoop - cnt
    decreases cfg.maxLoop - cnt
  {
    var p := cfg.Position(key, t, FastMod(draws(drawn), cfg.w));
    if st.used[t][p] && cnt + 1 != cfg.maxLoop {
      var evicted := st.tables[t][p];
      PlaceCountsEvictions(cfg, Put(st, t, p, Entry(key, counter)), evicted.first, (evicted.second + 1) % cfg.w,
                           (t + 1) % |cfg.sizes|, cnt + 1, draws, drawn + 1);
    }
  }

  // ---- Single insertions, cell by cell ----

  /** Two stores that hold the same everywhere except in one cell. */
  ghost predicate SameElsewhere(cfg: Config, st: Store, st': Store, cells: set<(nat, nat)>)
    requires Shaped(cfg, st) && Shaped(cfg, st')
  {
    forall t: nat, p: nat :: t < |cfg.sizes| && p < cfg.sizes[t] && (t, p) !in cells ==>
      st'.tables[t][p] == st.tables[t][p] && st'.used[t][p] == st.used[t][p]
  }

  /** A free slot that is drawn is taken at once. */
  lemma FreeSlotIsTaken(cfg: Config, st: Store, key: int, counter: int, t: nat, cnt: nat, draws: nat -> nat, drawn: nat)
    requires cfg.Valid() && Shaped(cfg, st) && t < |cfg.sizes| && cnt < cfg.maxLoop
    requires !st.used[t][cfg.Position(key, t, draws(drawn) % cfg.w)]
    ensures var r := PlaceIn(cfg, st, key, counter, t, cnt, draws, drawn);
            var p := cfg.Position(key, t, draws(drawn) % cfg.w);
      && r.Stored? && r.count == cnt && r.drawn == drawn + 1 && Shaped(cfg, r.store)
      && r.store.used[t][p] && r.store.tables[t][p] == Entry(key, counter)
      && SameElsewhere(cfg, st, r.store, {(t, p)})
  {
    FastModIsMod(draws(drawn), cfg.w);
  }

  /** A used slot at the limit: the key in hand is lost and nothing changes. */
  lemma UsedSlotAtLimit(cfg: Config, st: Store, key: int, counter: int, t: nat, draws: nat -> nat, drawn: nat)
    requires cfg.Valid() && Shaped(cfg, st) && t < |cfg.sizes|
    requires st.used[t][cfg.Position(key, t, draws(drawn) % cfg.w)]
    ensures PlaceIn(cfg, st, key, counter, t, cfg.maxLoop - 1, draws, drawn) == GaveUp(key, st, drawn + 1)
  {
    FastModIsMod(draws(drawn), cfg.w);
  }

  /** One eviction: the key takes the slot that is drawn for it, and the key
      that was there takes the free slot drawn for it in the next table. */
  lemma OneEviction(cfg: Config, st: Store, key: int, counter: int, t: nat, cnt: nat, draws: nat -> nat, drawn: nat,
                    p: nat, t': nat, p': nat)
    requires cfg.Valid() && Shaped(cfg, st) && t < |cfg.sizes| && cnt + 1 < cfg.maxLoop
    requires p == cfg.Position(key, t, draws(drawn) % cfg.w) && st.used[t][p]
    requires t' == (t + 1) % |cfg.sizes|
    requires p' == cfg.Position(st.tables[t][p].first, t', draws(drawn + 1) % cfg.w) && !st.used[t'][p']
    ensures var r := PlaceIn(cfg, st, key, counter, t, cnt, draws, drawn);
      && r.Stored? && r.count == cnt + 1 && r.drawn == drawn + 2 && Shaped(cfg, r.store)
      && r.store.used[t][p] && r.store.tables[t][p] == Entry(key, counter)
      && r.store.used[t'][p'] && r.store.tables[t'][p'].first == st.tables[t][p].first
      && r.store.tables[t'][p'].second == (st.tables[t][p].second + 1) % cfg.w
      && SameElsewhere(cfg, st, r.store, {(t, p), (t', p')})
  {
    FastModIsMod(draws(drawn), cfg.w);
    var evicted := st.tables[t][p];
    FreeSlotIsTaken(cfg, Put(st, t, p, Entry(key, counter)), evicted.first, (evicted.second + 1) % cfg.w, t', cnt + 1,
                    draws, drawn + 1);
  }

  // ---- Inserting a list of keys ----

  datatype Outcome =
    | Success(evictions: nat, store: Store, drawn: nat)
    | Failure(at: nat, lost: int, store: Store, drawn: nat)

  function EmptyStore(cfg: Config): (st: Store)
    ensures Shaped(cfg, st)
  {
    Store(seq(|cfg.sizes|, t requires 0 <= t < |cfg.sizes| => seq(cfg.sizes[t], _ => Entry(0, 0))),
          seq(|cfg.sizes|, t requires 0 <= t < |cfg.sizes| => seq(cfg.sizes[t], _ => false)))
  }

  function InsertAll(cfg: Config, st: Store, keys: seq<int>, draws: nat -> nat, drawn: nat): (r: Outcome)
    requires cfg.Valid() && Shaped(cfg, st)
    ensures Shaped(cfg, r.store)
  {
    if keys == [] then Success(0, st, drawn)
    else
      var n := |keys| - 1;
      match InsertAll(cfg, st, keys[..n], draws, drawn)
      case Failure(at, lost, st', drawn') => Failure(at, lost, st', drawn')
      case Success(evictions, st', drawn') =>
        PlaceKeepsHomes(cfg, st', keys[n], 0, 0, 0, draws, drawn');
        match PlaceIn(cfg, st', keys[n], 0, 0, 0, draws, drawn')
        case Stored(count, st'', drawn'') => Success(evictions + count, st'', drawn'')
        case GaveUp(lost, st'', drawn'') => Failure(n, lost, st'', drawn'')
  }

  function CountIn(keys: seq<int>, sel: int -> bool): nat {
    if keys == [] then 0 else CountIn(keys[..|keys| - 1], sel) + One(sel(keys[|keys| - 1]))
  }

  /** The keys whose insertion was attempted. */
  function Attempted(keys: seq<int>, r: Outcome): seq<int> {
    if r.Failure? && r.at < |keys| then keys[..r.at + 1] else keys
  }

  /** For every choice sequence and every collection of keys: the table holds
      what was inserted, minus exactly one key after a failure. */
  lemma {:induction false} InsertAllConserves(cfg: Config, st: Store, keys: seq<int>, draws: nat -> nat, drawn: nat,
                                              sel: int -> bool)
    requires cfg.Valid() && Shaped(cfg, st)
    ensures var r := InsertAll(cfg, st, keys, draws, drawn);
      && (r.Failure? ==> r.at < |keys|)
      && |Held(r.store, sel)| + One(r.Failure? && sel(r.lost)) == |Held(st, sel)| + CountIn(Attempted(keys, r), sel)
  {
    hide Held, PlaceIn;
    if keys != [] {
      var n := |keys| - 1;
      InsertAllConserves(cfg, st, keys[..n], draws, drawn, sel);
      var prev := InsertAll(cfg, st, keys[..n], draws, drawn);
      if prev.Success? {
        PlaceConserves(cfg, prev.store, keys[n], 0, 0, 0, draws, prev.drawn, sel);
        assert keys[..n + 1] == keys;
      } else {
        assert keys[..n][..prev.at + 1] == keys[..prev.at + 1];
      }
    }
  }

  lemma {:induction false} InsertAllKeepsHomes(cfg: Config, st: Store, keys: seq<int>, draws: nat -> nat, drawn: nat)
    requires cfg.Valid() && Shaped(cfg, st) && AtHome(cfg, st)
    ensures AtHome(cfg, InsertAll(cfg, st, keys, draws, drawn).store)
  {
    hide AtHome, PlaceIn;
    if keys != [] {
      var n := |keys| - 1;
      InsertAllKeepsHomes(cfg, st, keys[..n], draws, drawn);
      var prev := InsertAll(cfg, st, keys[..n], draws, drawn);
      if prev.Success? {
        PlaceKeepsHomes(cfg, prev.store, keys[n], 0, 0, 0, draws, prev.drawn);
      }
    }
  }

  lemma OneMore(n: nat, k: int)
    ensures (n + 1) * k == n * k + k
  {
  }

  /** The total is at most no_keys * (max_loop - 1). */
  lemma {:induction false} InsertAllBound(cfg: Config, st: Store, keys: seq<int>, draws: nat -> nat, drawn: nat)
    requires cfg.Valid() && Shaped(cfg, st)
    ensures var r := InsertAll(cfg, st, keys, draws, drawn);
      r.Success? ==> r.evictions <= |keys| * (cfg.maxLoop - 1) && r.evictions + |keys| == r.drawn - drawn
  {
    hide PlaceIn;
    if keys != [] {
      var n := |keys| - 1;
      InsertAllBound(cfg, st, keys[..n], draws, drawn);
      var prev := InsertAll(cfg, st, keys[..n], draws, drawn);
      if prev.Success? {
        PlaceCountsEvictions(cfg, prev.store, keys[n], 0, 0, 0, draws, prev.drawn);
        OneMore(n, cfg.maxLoop - 1);
      }
    }
  }

  // ---- Hall's condition ----

  /** The slots that some selected key may be stored in. */
  ghost function Candidates(cfg: Config, keys: seq<int>, sel: int -> bool): set<(nat, nat)>
    requires cfg.Valid()
  {
    set t: nat, p: nat | t < |cfg.sizes| && p < cfg.sizes[t]
                         && exists i :: 0 <= i < |keys| && sel(keys[i]) && cfg.IsHome(keys[i], t, p) :: (t, p)
  }

  lemma {:induction false} CountZero(keys: seq<int>, sel: int -> bool)
    ensures CountIn(keys, sel) == 0 <==> forall i :: 0 <= i < |keys| ==> !sel(keys[i])
  {
    if keys != [] {
      CountZero(keys[..|keys| - 1], sel);
    }
  }

  lemma EmptyHoldsNothing(cfg: Config, sel: int -> bool)
    requires cfg.Valid()
    ensures Shaped(cfg, EmptyStore(cfg)) && AtHome(cfg, EmptyStore(cfg)) && Held(EmptyStore(cfg), sel) == {}
  {
  }

  /** A successful run from empty tables stores every key as often as it was
      given, and nothing else. */
  lemma SuccessHoldsKeys(cfg: Config, keys: seq<int>, draws: nat -> nat, drawn: nat, sel: int -> bool)
    requires cfg.Valid() && Shaped(cfg, EmptyStore(cfg))
    requires InsertAll(cfg, EmptyStore(cfg), keys, draws, drawn).Success?
    ensures |Held(InsertAll(cfg, EmptyStore(cfg), keys, draws, drawn).store, sel)| == CountIn(keys, sel)
  {
    EmptyHoldsNothing(cfg, sel);
    InsertAllConserves(cfg, EmptyStore(cfg), keys, draws, drawn, sel);
  }

  /** Whoever succeeds has room: every sub-collection of the keys has at least
      as many candidate slots as keys. */
  lemma SuccessNeedsRoom(cfg: Config, keys: seq<int>, draws: nat -> nat, drawn: nat, sel: int -> bool)
    requires cfg.Valid() && Shaped(cfg, EmptyStore(cfg))
    requires InsertAll(cfg, EmptyStore(cfg), keys, draws, drawn).Success?
    ensures CountIn(keys, sel) <= |Candidates(cfg, keys, sel)|
  {
    hide InsertAll, EmptyStore;
    var st := InsertAll(cfg, EmptyStore(cfg), keys, draws, drawn).store;
    EmptyHoldsNothing(cfg, sel);
    InsertAllKeepsHomes(cfg, EmptyStore(cfg), keys, draws, drawn);
    forall slot | slot in Held(st, sel) ensures slot in Candidates(cfg, keys, sel) {
      var k := st.tables[slot.0][slot.1].first;
      SuccessHoldsKeys(cfg, keys, draws, drawn, x => x == k);
      CountZero(keys, x => x == k);
      assert slot in Held(st, x => x == k);
    }
    SuccessHoldsKeys(cfg, keys, draws, drawn, sel);
    SubsetSize(Held(st, sel), Candidates(cfg, keys, sel));
  }

  /** Keys that violate Hall's condition fail under every choice sequence. */
  lemma WithoutRoomEveryRunFails(cfg: Config, keys: seq<int>, draws: nat -> nat, drawn: nat, sel: int -> bool)
    requires cfg.Valid() && Shaped(cfg, EmptyStore(cfg))
    requires CountIn(keys, sel) > |Candidates(cfg, keys, sel)|
    ensures InsertAll(cfg, EmptyStore(cfg), keys, draws, drawn).Failure?
  {
    if InsertAll(cfg, EmptyStore(cfg), keys, draws, drawn).Success? {
      SuccessNeedsRoom(cfg, keys, draws, drawn, sel);
    }
  }

  // ---- Which key sets can be stored ----

  /** The slot of the first table that is drawn first for key i. */
  function Drawn(cfg: Config, keys: seq<int>, draws: nat -> nat, i: nat): nat
    requires cfg.Valid() && i < |keys|
    ensures Drawn(cfg, keys, draws, i) < cfg.sizes[0]
  {
    cfg.Position(keys[i], 0, draws(i) % cfg.w)
  }

  lemma DrawnChoice(cfg: Config, keys: seq<int>, draws: nat -> nat, i: nat, j: nat)
    requires cfg.Valid() && i < |keys| && j < cfg.w && draws(i) == j
    ensures Drawn(cfg, keys, draws, i) == cfg.Position(keys[i], 0, j)
  {
    FastModIsMod(j, cfg.w);
  }

  ghost predicate DifferentDraws(cfg: Config, keys: seq<int>, draws: nat -> nat)
    requires cfg.Valid()
  {
    forall i, j :: 0 <= i < j < |keys| ==> Drawn(cfg, keys, draws, i) != Drawn(cfg, keys, draws, j)
  }

  /** Every key sits in the slot drawn for it, and no other slot is used. */
  ghost predicate HeldAsDrawn(cfg: Config, st: Store, keys: seq<int>, draws: nat -> nat)
    requires cfg.Valid() && Shaped(cfg, st)
  {
    && (forall i :: 0 <= i < |keys| ==>
          var p := Drawn(cfg, keys, draws, i); st.used[0][p] && st.tables[0][p] == Entry(keys[i], 0))
    && (forall t: nat, p: nat :: t < |cfg.sizes| && p < cfg.sizes[t] && st.used[t][p] ==>
          t == 0 && exists i :: 0 <= i < |keys| && p == Drawn(cfg, keys, draws, i))
  }

  lemma DrawnPrefix(cfg: Config, keys: seq<int>, draws: nat -> nat, n: nat)
    requires cfg.Valid() && n <= |keys|
    ensures forall i :: 0 <= i < n ==> Drawn(cfg, keys[..n], draws, i) == Drawn(cfg, keys, draws, i)
  {
  }

  /** One more key in its own slot. */
  lemma HoldOneMore(cfg: Config, st: Store, st': Store, keys: seq<int>, draws: nat -> nat)
    requires cfg.Valid() && Shaped(cfg, st) && Shaped(cfg, st') && keys != [] && DifferentDraws(cfg, keys, draws)
    requires HeldAsDrawn(cfg, st, keys[..|keys| - 1], draws)
    requires var p := Drawn(cfg, keys, draws, |keys| - 1);
      && SameElsewhere(cfg, st, st', {(0, p)})
      && st'.used[0][p] && st'.tables[0][p] == Entry(keys[|keys| - 1], 0)
    ensures HeldAsDrawn(cfg, st', keys, draws)
  {
    hide Drawn;
    var n := |keys| - 1;
    DrawnPrefix(cfg, keys, draws, n);
    forall i | 0 <= i < |keys|
      ensures var p := Drawn(cfg, keys, draws, i); st'.used[0][p] && st'.tables[0][p] == Entry(keys[i], 0)
    {
      if i < n {
        assert Drawn(cfg, keys[..n], draws, i) == Drawn(cfg, keys, draws, i) != Drawn(cfg, keys, draws, n);
      }
    }
    forall t: nat, p: nat | t < |cfg.sizes| && p < cfg.sizes[t] && st'.used[t][p]
      ensures t == 0 && exists i :: 0 <= i < |keys| && p == Drawn(cfg, keys, draws, i)
    {
      if (t, p) != (0, Drawn(cfg, keys, draws, n)) {
        var i :| 0 <= i < n && p == Drawn(cfg, keys[..n], draws, i);
        assert p == Drawn(cfg, keys, draws, i);
      }
    }
  }

  lemma {:induction false} DifferentSlotsHold(cfg: Config, keys: seq<int>, draws: nat -> nat)
    requires cfg.Valid() && DifferentDraws(cfg, keys, draws)
    ensures var r := InsertAll(cfg, EmptyStore(cfg), keys, draws, 0);
      r.Success? && r.evictions == 0 && r.drawn == |keys| && HeldAsDrawn(cfg, r.store, keys, draws)
  {
    if keys == [] {
      assert HeldAsDrawn(cfg, EmptyStore(cfg), [], draws);
    } else {
      hide PlaceIn, SameElsewhere, HeldAsDrawn, EmptyStore;
      var n := |keys| - 1;
      DrawnPrefix(cfg, keys, draws, n);
      DifferentSlotsHold(cfg, keys[..n], draws);
      var prev := InsertAll(cfg, EmptyStore(cfg), keys[..n], draws, 0);
      SlotIsFree(cfg, prev.store, keys, draws);
      FreeSlotIsTaken(cfg, prev.store, keys[n], 0, 0, 0, draws, n);
      HoldOneMore(cfg, prev.store, PlaceIn(cfg, prev.store, keys[n], 0, 0, 0, draws, n).store, keys, draws);
    }
  }

  lemma SlotIsFree(cfg: Config, st: Store, keys: seq<int>, draws: nat -> nat)
    requires cfg.Valid() && Shaped(cfg, st) && keys != [] && DifferentDraws(cfg, keys, draws)
    requires HeldAsDrawn(cfg, st, keys[..|keys| - 1], draws)
    ensures !st.used[0][Drawn(cfg, keys, draws, |keys| - 1)]
  {
    hide Drawn;
    DrawnPrefix(cfg, keys, draws, |keys| - 1);
  }

  /** Keys that draw different slots are all stored, where they were drawn and
      without an eviction; no other slot is used. */
  lemma DifferentSlotsSucceed(cfg: Config, keys: seq<int>, draws: nat -> nat)
    requires cfg.Valid()
    requires forall i, j :: 0 <= i < j < |keys| ==>
      cfg.Position(keys[i], 0, draws(i) % cfg.w) != cfg.Position(keys[j], 0, draws(j) % cfg.w)
    ensures var r := InsertAll(cfg, EmptyStore(cfg), keys, draws, 0);
      && r.Success? && r.evictions == 0 && r.drawn == |keys|
      && (forall i :: 0 <= i < |keys| ==>
            var p := cfg.Position(keys[i], 0, draws(i) % cfg.w);
            r.store.used[0][p] && r.store.tables[0][p] == Entry(keys[i], 0))
      && (forall t: nat, p: nat :: t < |cfg.sizes| && p < cfg.sizes[t] && r.store.used[t][p] ==>
            t == 0 && exists i :: 0 <= i < |keys| && p == cfg.Position(keys[i], 0, draws(i) % cfg.w))
  {
    hide InsertAll, EmptyStore;
    var st := InsertAll(cfg, EmptyStore(cfg), keys, draws, 0).store;
    DifferentSlotsHold(cfg, keys, draws);
    forall i | 0 <= i < |keys|
      ensures var p := cfg.Position(keys[i], 0, draws(i) % cfg.w);
        st.used[0][p] && st.tables[0][p] == Entry(keys[i], 0)
    {
      assert Drawn(cfg, keys, draws, i) == cfg.Position(keys[i], 0, draws(i) % cfg.w);
    }
  }

  /** Every key has a slot of the first table of its own among its candidates. */
  ghost predicate Represents(cfg: Config, keys: seq<int>, slots: seq<nat>)
    requires cfg.Valid()
  {
    && |slots| == |keys|
    && (forall i :: 0 <= i < |slots| ==> slots[i] < cfg.sizes[0] && cfg.IsHome(keys[i], 0, slots[i]))
    && (forall i, j :: 0 <= i < j < |slots| ==> slots[i] != slots[j])
  }

  lemma {:induction false} ChooseHashes(cfg: Config, keys: seq<int>, slots: seq<nat>) returns (choice: seq<nat>)
    requires cfg.Valid() && Represents(cfg, keys, slots)
    ensures |choice| == |keys|
    ensures forall i :: 0 <= i < |keys| ==> choice[i] < cfg.w && cfg.Position(keys[i], 0, choice[i]) == slots[i]
  {
    if keys == [] {
      choice := [];
    } else {
      var n := |keys| - 1;
      var front := ChooseHashes(cfg, keys[..n], slots[..n]);
      assert cfg.IsHome(keys[n], 0, slots[n]);
      var j :| 0 <= j < cfg.w && cfg.Position(keys[n], 0, j) == slots[n];
      choice := front + [j];
    }
  }

  /** Keys with distinct representatives have a choice sequence that stores them. */
  lemma RepresentedKeysSucceed(cfg: Config, keys: seq<int>, slots: seq<nat>) returns (draws: nat -> nat)
    requires cfg.Valid() && Represents(cfg, keys, slots)
    ensures InsertAll(cfg, EmptyStore(cfg), keys, draws, 0).Success?
  {
    var choice := ChooseHashes(cfg, keys, slots);
    draws := (i: nat) => if i < |choice| then choice[i] else 0;
    hide InsertAll, EmptyStore;
    forall i | 0 <= i < |keys| ensures Drawn(cfg, keys, draws, i) == slots[i] {
      DrawnChoice(cfg, keys, draws, i, choice[i]);
    }
    assert DifferentDraws(cfg, keys, draws);
    DifferentSlotsHold(cfg, keys, draws);
  }

  /** The slots hold the keys, one each, and no other slot is used. */
  ghost predicate Tracks(cfg: Config, st: Store, keys: seq<int>, slots: seq<nat>)
    requires |cfg.sizes| == 1 && Shaped(cfg, st)
  {
    && |slots| == |keys|
    && (forall i :: 0 <= i < |slots| ==>
          slots[i] < cfg.sizes[0] && st.used[0][slots[i]] && st.tables[0][slots[i]].first == keys[i])
    && (forall i, j :: 0 <= i < j < |slots| ==> slots[i] != slots[j])
    && (forall p: nat :: p < cfg.sizes[0] && st.used[0][p] ==> p in slots)
  }

  function Swap<T>(s: seq<T>, i: nat, j: nat): seq<T>
    requires i < |s| && j < |s|
  {
    s[i := s[j]][j := s[i]]
  }

  /** An insertion into a tracked table that stores its key can be tracked:
      every eviction swaps the key in hand with a tracked one. */
  lemma {:induction false} PlaceTracks(cfg: Config, st: Store, key: int, counter: int, cnt: nat, draws: nat -> nat,
                                       drawn: nat, keys: seq<int>, slots: seq<nat>) returns (slots': seq<nat>)
    requires cfg.Valid() && |cfg.sizes| == 1 && Shaped(cfg, st) && cnt < cfg.maxLoop && Tracks(cfg, st, keys, slots)
    requires PlaceIn(cfg, st, key, counter, 0, cnt, draws, drawn).Stored?
    ensures var r := PlaceIn(cfg, st, key, counter, 0, cnt, draws, drawn);
      |slots'| == |keys| + 1 && Shaped(cfg, r.store) && Tracks(cfg, r.store, keys + [key], slots')
    decreases cfg.maxLoop - cnt
  {
    hide Tracks;
    var p := cfg.Position(key, 0, FastMod(draws(drawn), cfg.w));
    var after := Put(st, 0, p, Entry(key, counter));
    if !st.used[0][p] {
      slots' := slots + [p];
      FreshTracks(cfg, st, keys, key, counter, slots, p);
    } else {
      var i := EvictionTracks(cfg, st, keys, key, counter, slots, p);
      var evicted := st.tables[0][p];
      var swapped := PlaceTracks(cfg, after, evicted.first, (evicted.second + 1) % cfg.w, cnt + 1, draws, drawn + 1,
                                 keys[i := key], slots);
      slots' := Swap(swapped, i, |keys|);
      SwapTracks(cfg, PlaceIn(cfg, st, key, counter, 0, cnt, draws, drawn).store, keys, key, i, swapped);
    }
  }

  lemma FreshTracks(cfg: Config, st: Store, keys: seq<int>, key: int, counter: int, slots: seq<nat>, p: nat)
    requires |cfg.sizes| == 1 && Shaped(cfg, st) && Tracks(cfg, st, keys, slots) && p < cfg.sizes[0] && !st.used[0][p]
    ensures |slots| == |keys| && Tracks(cfg, Put(st, 0, p, Entry(key, counter)), keys + [key], slots + [p])
  {
    assert forall i :: 0 <= i < |slots| ==> (slots + [p])[i] == slots[i];
    assert (slots + [p])[|slots|] == p;
  }

  lemma EvictionTracks(cfg: Config, st: Store, keys: seq<int>, key: int, counter: int, slots: seq<nat>, p: nat)
    returns (i: nat)
    requires |cfg.sizes| == 1 && Shaped(cfg, st) && Tracks(cfg, st, keys, slots) && p < cfg.sizes[0] && st.used[0][p]
    ensures i < |keys| == |slots| && keys[i] == st.tables[0][p].first
    ensures Tracks(cfg, Put(st, 0, p, Entry(key, counter)), keys[i := key], slots)
  {
    i :| 0 <= i < |slots| && slots[i] == p;
  }

  lemma SwapTracks(cfg: Config, st: Store, keys: seq<int>, key: int, i: nat, slots: seq<nat>)
    requires |cfg.sizes| == 1 && Shaped(cfg, st) && i < |keys| && |slots| == |keys| + 1
    requires Tracks(cfg, st, keys[i := key] + [keys[i]], slots)
    ensures Tracks(cfg, st, keys + [key], Swap(slots, i, |keys|))
  {
    var swapped := Swap(slots, i, |keys|);
    forall p: nat | p < cfg.sizes[0] && st.used[0][p] ensures p in swapped {
      var j :| 0 <= j < |slots| && slots[j] == p;
      assert swapped[if j == i then |keys| else if j == |keys| then i else j] == p;
    }
  }

  lemma {:induction false} InsertAllTracks(cfg: Config, keys: seq<int>, draws: nat -> nat) returns (slots: seq<nat>)
    requires cfg.Valid() && |cfg.sizes| == 1 && InsertAll(cfg, EmptyStore(cfg), keys, draws, 0).Success?
    ensures Tracks(cfg, InsertAll(cfg, EmptyStore(cfg), keys, draws, 0).store, keys, slots)
  {
    hide PlaceIn, Tracks;
    if keys == [] {
      slots := [];
      EmptyTracks(cfg);
    } else {
      var n := |keys| - 1;
      var front := InsertAllTracks(cfg, keys[..n], draws);
      var prev := InsertAll(cfg, EmptyStore(cfg), keys[..n], draws, 0);
      slots := PlaceTracks(cfg, prev.store, keys[n], 0, 0, draws, prev.drawn, keys[..n], front);
      assert keys[..n] + [keys[n]] == keys;
    }
  }

  lemma EmptyTracks(cfg: Config)
    requires cfg.Valid() && |cfg.sizes| == 1
    ensures Tracks(cfg, EmptyStore(cfg), [], [])
  {
  }

  /** A run that succeeds exhibits distinct representatives. */
  lemma SuccessGivesRepresentatives(cfg: Config, keys: seq<int>, draws: nat -> nat) returns (slots: seq<nat>)
    requires cfg.Valid() && |cfg.sizes| == 1 && InsertAll(cfg, EmptyStore(cfg), keys, draws, 0).Success?
    ensures Represents(cfg, keys, slots)
  {
    hide InsertAll, EmptyStore;
    slots := InsertAllTracks(cfg, keys, draws);
    EmptyHoldsNothing(cfg, Any());
    InsertAllKeepsHomes(cfg, EmptyStore(cfg), keys, draws, 0);
  }

  /** With one table, some choice sequence succeeds if and only if the keys
      have distinct representatives. */
  lemma SomeRunSucceeds(cfg: Config, keys: seq<int>)
    requires cfg.Valid() && |cfg.sizes| == 1
    ensures (exists draws: nat -> nat :: InsertAll(cfg, EmptyStore(cfg), keys, draws, 0).Success?)
       <==> exists slots :: Represents(cfg, keys, slots)
  {
    hide InsertAll, EmptyStore, Represents;
    if slots :| Represents(cfg, keys, slots) {
      var draws := RepresentedKeysSucceed(cfg, keys, slots);
      assert InsertAll(cfg, EmptyStore(cfg), keys, draws, 0).Success?;
    }
    if draws: nat -> nat :| InsertAll(cfg, EmptyStore(cfg), keys, draws, 0).Success? {
      var slots := SuccessGivesRepresentatives(cfg, keys, draws);
      assert Represents(cfg, keys, slots);
    }
  }

  // ---- The tables, updated in place ----

  class CuckooHashing {
    const cfg: Config
    var tables: seq<seq<Entry>>
    var tableUsage: seq<seq<bool>>

    ghost function State(): Store
      reads this
    {
      Store(tables, tableUsage)
    }

    ghost predicate Valid()
      reads this
    {
      cfg.Valid() && Shaped(cfg, State())
    }

    constructor (cfg: Config)
      requires cfg.Valid()
      ensures Valid() && this.cfg == cfg && State() == EmptyStore(cfg)
      ensures forall t, p :: 0 <= t < |cfg.sizes| && 0 <= p < cfg.sizes[t] ==>
        !tableUsage[t][p] && tables[t][p] == Entry(0, 0)
    {
      var ts: seq<seq<Entry>>, us: seq<seq<bool>> := [], [];
      for i := 0 to |cfg.sizes|
        invariant |ts| == |us| == i
        invariant forall t :: 0 <= t < i ==> ts[t] == EmptyStore(cfg).tables[t] && us[t] == EmptyStore(cfg).used[t]
      {
        ts := ts + [seq(cfg.sizes[i], _ => Entry(0, 0))];
        us := us + [seq(cfg.sizes[i], _ => false)];
      }
      this.cfg, tables, tableUsage := cfg, ts, us;
    }

    /** The result is the number of evictions, or -1 when the limit is reached. */
    method Place(key: int, randNo: int, tableID: nat, cnt: nat, draws: nat -> nat, drawn: nat)
      returns (result: int, drawn': nat)
      requires Valid() && tableID < |cfg.sizes| && cnt < cfg.maxLoop
      modifies this
      ensures Valid()
      ensures var r := PlaceIn(cfg, old(State()), key, randNo, tableID, cnt, draws, drawn);
        State() == r.store && drawn' == r.drawn && result == (if r.Stored? then r.count else -1)
      decreases cfg.maxLoop - cnt
    {
      hide FastMod, HashThis;
      FastModIsMod(draws(drawn), cfg.w);
      var randomWalk := FastMod(draws(drawn), cfg.w);
      var pos := HashThis(cfg.func, key, cfg.rands[randomWalk], cfg.sizes[tableID]);
      assert pos == cfg.Position(key, tableID, randomWalk);
      if !tableUsage[tableID][pos] {
        StoreAt(tableID, pos, Entry(key, randNo));
        return cnt, drawn + 1;
      }
      var newCnt := cnt + 1;
      if newCnt == cfg.maxLoop {
        return -1, drawn + 1;
      }
      var newKey := tables[tableID][pos].first;
      var newRandNo := (tables[tableID][pos].second + 1) % cfg.w;
      StoreAt(tableID, pos, Entry(key, randNo));
      result, drawn' := Place(newKey, newRandNo, (tableID + 1) % |cfg.sizes|, newCnt, draws, drawn + 1);
    }

    /** A cell is overwritten; its usage flag is set if it was free. */
    method StoreAt(tableID: nat, pos: nat, e: Entry)
      requires Valid() && tableID < |cfg.sizes| && pos < cfg.sizes[tableID]
      modifies this
      ensures Valid() && State() == Put(old(State()), tableID, pos, e)
    {
      tables := tables[tableID := tables[tableID][pos := e]];
      if !tableUsage[tableID][pos] {
        tableUsage := tableUsage[tableID := tableUsage[tableID][pos := true]];
      }
      assert old(tableUsage)[tableID][pos] ==> tableUsage[tableID][pos := true] == tableUsage[tableID];
    }

    /** All keys in turn; the first failure ends the run. */
    method Cuckoo(keys: seq<int>, noKeys: nat, draws: nat -> nat) returns (evictions: int)
      requires Valid() && noKeys <= |keys|
      modifies this
      ensures Valid()
      ensures var r := InsertAll(cfg, old(State()), keys[..noKeys], draws, 0);
        State() == r.store && evictions == (if r.Success? then r.evictions else -1)
    {
      evictions := 0;
      var drawn := 0;
      ghost var start := State();
      for i := 0 to noKeys
        invariant Valid() && evictions >= 0
        invariant InsertAll(cfg, start, keys[..i], draws, 0) == Success(evictions, State(), drawn)
      {
        assert keys[..i + 1][..i] == keys[..i];
        var ev;
        ev, drawn := Place(keys[i], 0, 0, 0, draws, drawn);
        if ev == -1 {
          FailureSticks(cfg, start, keys, draws, i + 1, noKeys);
          return -1;
        }
        evictions := evictions + ev;
      }
    }
  }

  lemma {:induction false} FailureSticks(cfg: Config, st: Store, keys: seq<int>, draws: nat -> nat, i: nat, n: nat)
    requires cfg.Valid() && Shaped(cfg, st) && i <= n <= |keys|
    requires InsertAll(cfg, st, keys[..i], draws, 0).Failure?
    ensures InsertAll(cfg, st, keys[..n], draws, 0) == InsertAll(cfg, st, keys[..i], draws, 0)
    decreases n - i
  {
    if i < n {
      FailureSticks(cfg, st, keys, draws, i, n - 1);
      assert keys[..n][..n - 1] == keys[..n - 1];
    }
  }
}
