/**
 * The search engine's transposition table (`TranspositionTable` in ai.js):
 * an insertion-ordered map from position keys to cached search results,
 * first-in-first-out eviction when full, lookups that only return an entry
 * deep enough and tight enough for the caller's window, and retention-based
 * expiry. The clock (`Date.now()`) is the parameter `now`.
 */
module Cache {
  import opened Wrappers
  import opened Constants
  import opened Board

  // ------------------------------------------------------------------- keys

  /** The character of a one-digit code. */
  function CodeChar(code: int): (c: char)
    requires 0 <= code <= 9
    ensures '0' <= c <= '9'
  {
    (code + '0' as int) as char
  }

  /** The codes of the first `k` cells in row-major order, one digit each. */
  function CellsKey(g: Grid, k: int): (key: string)
    requires 0 <= k <= TOTAL_SQUARES
    ensures |key| == k
    ensures forall i | 0 <= i < k :: key[i] == CodeChar(PieceCode(At(g, CellOf(i))))
  {
    if k == 0 then [] else CellsKey(g, k - 1) + [CodeChar(PieceCode(At(g, CellOf(k - 1))))]
  }

  /** `generateKey`: every row joined into one string of piece codes, then the player code. */
  function KeyOf(pos: Position): (key: string)
    ensures |key| == TOTAL_SQUARES + 1
  {
    CellsKey(pos.pieces, TOTAL_SQUARES) + [CodeChar(PlayerCode(pos.currentPlayer))]
  }

  /** Two positions share a key only if they are the same position: the key is a faithful
      encoding of the grid and the side to move. */
  lemma KeyOfInjective(p: Position, q: Position)
    requires KeyOf(p) == KeyOf(q)
    ensures p == q
  {
    var kp, kq := KeyOf(p), KeyOf(q);
    forall s | InBoard(s)
      ensures At(p.pieces, s) == At(q.pieces, s)
    {
      CellOfIndex(s);
      var i := s.row * BOARD_SIZE + s.col;
      assert kp[i] == kq[i];
      PieceCodesDistinct(At(p.pieces, s), At(q.pieces, s));
    }
    GridExtensionality(p.pieces, q.pieces);
    assert kp[TOTAL_SQUARES] == kq[TOTAL_SQUARES];
  }

  // ---------------------------------------------------------------- entries

  /** A cached search result: the depth it was searched to, its score, how the score bounds the
      true value, the best move found (none for inner nodes) and when it was stored. */
  datatype Entry = Entry(depth: int, value: int, kind: Bound, bestMove: Option<Move>, timestamp: int)

  /** The JavaScript `Map`: its keys in insertion order and the entry of each key. */
  datatype Table = Table(order: seq<string>, entries: map<string, Entry>)

  predicate Distinct(s: seq<string>)
  {
    forall i, j | 0 <= i < j < |s| :: s[i] != s[j]
  }

  /** The order lists each stored key exactly once. */
  ghost predicate WellFormed(t: Table)
  {
    Distinct(t.order) && forall k :: k in t.order <==> k in t.entries
  }

  const EMPTY_TABLE: Table := Table([], map[])

  /** `s` without the key `k`, the others in their order. */
  function Without(s: seq<string>, k: string): (r: seq<string>)
    ensures forall x :: x in r <==> x in s && x != k
    ensures |r| <= |s|
    ensures k in s && Distinct(s) ==> |r| == |s| - 1
    ensures Distinct(s) ==> Distinct(r)
    ensures k !in s ==> r == s
  {
    if s == [] then []
    else
      var rest := Without(s[1..], k);
      assert forall x | x in s[1..] :: x in s;
      if s[0] == k then
        assert Distinct(s) ==> k !in s[1..];
        rest
      else
        assert Distinct(s) ==> s[0] !in rest;
        [s[0]] + rest
  }

  /** `map.delete(k)`. */
  function Delete(t: Table, k: string): Table
  {
    Table(Without(t.order, k), t.entries - {k})
  }

  /** `map.set(k, e)`: a new key goes last, an existing key keeps its place. */
  function Set(t: Table, k: string, e: Entry): Table
  {
    if k in t.entries then Table(t.order, t.entries[k := e]) else Table(t.order + [k], t.entries[k := e])
  }

  /** The table is at capacity, so `store` first deletes the oldest key. */
  predicate Full(t: Table, maxSize: int)
  {
    |t.order| >= maxSize && t.order != []
  }

  /** `store`: evict the first-inserted key when the table is full, then set the entry. */
  function StoreInto(t: Table, maxSize: int, k: string, e: Entry): Table
  {
    var kept := if Full(t, maxSize) then Delete(t, t.order[0]) else t;
    Set(kept, k, e)
  }

  /** After `store` the key maps to the new entry; a full table lost its first-inserted key
      (unless that is the key being stored); every other key keeps its entry; an existing key
      keeps its place in the eviction order; and with room for at least one entry the table
      never grows beyond its capacity. */
  lemma StoreSpec(t: Table, maxSize: int, k: string, e: Entry)
    requires WellFormed(t)
    ensures var r := StoreInto(t, maxSize, k, e);
            && WellFormed(r)
            && k in r.entries && r.entries[k] == e
            && (Full(t, maxSize) && t.order[0] != k ==> t.order[0] !in r.entries)
            && (forall x | x != k && x in r.entries :: x in t.entries && r.entries[x] == t.entries[x])
            && (forall x | x != k && x in t.entries && !(Full(t, maxSize) && x == t.order[0]) :: x in r.entries)
            && (k in t.entries && !Full(t, maxSize) ==> r.order == t.order)
            && (k in t.entries && Full(t, maxSize) && t.order[0] != k ==> r.order == t.order[1..])
            && (1 <= maxSize && |t.order| <= maxSize ==> |r.order| <= maxSize)
  {
    var r := StoreInto(t, maxSize, k, e);
    if Full(t, maxSize) {
      var first := t.order[0];
      assert first in t.order;
      WithoutFirst(t.order);
    }
    var kept := if Full(t, maxSize) then Delete(t, t.order[0]) else t;
    assert WellFormed(kept);
    if k !in kept.entries {
      assert Distinct(kept.order + [k]) by {
        forall i, j | 0 <= i < j < |kept.order + [k]|
          ensures (kept.order + [k])[i] != (kept.order + [k])[j]
        {
          if j == |kept.order| {
            assert (kept.order + [k])[i] in kept.order;
          } else {
            assert (kept.order + [k])[i] == kept.order[i] && (kept.order + [k])[j] == kept.order[j];
          }
        }
      }
    }
  }

  /** Removing the first key of a distinct order leaves the rest of it. */
  lemma WithoutFirst(s: seq<string>)
    requires s != [] && Distinct(s)
    ensures Without(s, s[0]) == s[1..]
  {
    assert s[0] !in s[1..];
  }

  // ---------------------------------------------------------------- lookups

  /** `RETENTION_TIME[this.level]` was exceeded. Before `setDifficulty` the level is undefined,
      the comparison with `undefined` is false, and nothing expires. */
  predicate Expired(e: Entry, now: int, level: Option<Level>)
  {
    level.Some? && now - e.timestamp > RetentionTime(level.value)
  }

  /** The entry answers a query at `depth` with window (`alpha`, `beta`): deep enough, and exact
      or a bound that already decides the window. */
  predicate Usable(e: Entry, depth: int, alpha: int, beta: int)
  {
    e.depth >= depth
    && (e.kind == Exact || (e.kind == LowerBound && e.value >= beta) || (e.kind == UpperBound && e.value <= alpha))
  }

  /** The result of `lookup`: some entry only for a stored, unexpired, usable one. */
  function Probe(t: Table, level: Option<Level>, k: string, depth: int, alpha: int, beta: int,
                 now: int): (r: Option<Entry>)
    ensures r.Some? <==> k in t.entries && !Expired(t.entries[k], now, level)
                         && Usable(t.entries[k], depth, alpha, beta)
    ensures r.Some? ==> r.value == t.entries[k]
  {
    if k !in t.entries then None
    else
      var e := t.entries[k];
      if Expired(e, now, level) then None
      else if Usable(e, depth, alpha, beta) then Some(e)
      else None
  }

  /** Whether a lookup counts a hit: the entry is stored, unexpired and deep enough, even when
      its bound does not decide the window. */
  predicate CountsHit(t: Table, level: Option<Level>, k: string, depth: int, now: int)
  {
    k in t.entries && !Expired(t.entries[k], now, level) && t.entries[k].depth >= depth
  }

  /** An answered lookup always counts a hit, and an entry that does not count a hit is never
      returned; an exact entry deep enough is always returned. */
  lemma ProbeHits(t: Table, level: Option<Level>, k: string, depth: int, alpha: int, beta: int, now: int)
    ensures Probe(t, level, k, depth, alpha, beta, now).Some? ==> CountsHit(t, level, k, depth, now)
    ensures CountsHit(t, level, k, depth, now) && t.entries[k].kind == Exact
            ==> Probe(t, level, k, depth, alpha, beta, now) == Some(t.entries[k])
  {
  }

  // ---------------------------------------------------------------- cleanup

  /** The key is stored with an expired entry. */
  predicate Stale(entries: map<string, Entry>, k: string, now: int, level: Option<Level>)
  {
    k in entries && Expired(entries[k], now, level)
  }

  /** The keys of `s` that are not stale, in order. */
  function FreshKeys(s: seq<string>, entries: map<string, Entry>, now: int, level: Option<Level>): seq<string>
    decreases |s|
  {
    if s == [] then []
    else
      var last := s[|s| - 1];
      FreshKeys(s[..|s| - 1], entries, now, level) + if Stale(entries, last, now, level) then [] else [last]
  }

  /** The fresh keys are exactly the keys of `s` that are not stale; no key is repeated when `s`
      repeats none; there are no more of them than keys. */
  lemma {:induction false} FreshKeysMembers(s: seq<string>, entries: map<string, Entry>, now: int, level: Option<Level>)
    ensures forall x :: x in FreshKeys(s, entries, now, level) <==> x in s && !Stale(entries, x, now, level)
    ensures Distinct(s) ==> Distinct(FreshKeys(s, entries, now, level))
    ensures |FreshKeys(s, entries, now, level)| <= |s|
    decreases |s|
  {
    if s != [] {
      var front, last := s[..|s| - 1], s[|s| - 1];
      FreshKeysMembers(front, entries, now, level);
      assert s == front + [last];
      if Distinct(s) {
        assert Distinct(front) by {
          forall i, j | 0 <= i < j < |front|
            ensures front[i] != front[j]
          {
            assert front[i] == s[i] && front[j] == s[j];
          }
        }
        assert last !in front by {
          forall i | 0 <= i < |front|
            ensures front[i] != last
          {
            assert front[i] == s[i];
          }
        }
        DistinctSnoc(FreshKeys(front, entries, now, level), last);
      }
    }
  }

  lemma DistinctSnoc(s: seq<string>, x: string)
    requires Distinct(s) && x !in s
    ensures Distinct(s + [x])
  {
    var r := s + [x];
    forall i, j | 0 <= i < j < |r|
      ensures r[i] != r[j]
    {
      if j < |s| {
        assert r[i] == s[i] && r[j] == s[j];
      } else {
        assert r[i] == s[i] && r[j] == x;
      }
    }
  }

  /** The table `cleanup` leaves: exactly the unexpired entries, in their order. */
  function Cleaned(t: Table, now: int, level: Option<Level>): Table
  {
    Table(FreshKeys(t.order, t.entries, now, level),
          map k | k in t.entries && !Expired(t.entries[k], now, level) :: t.entries[k])
  }

  /** `cleanup` removes exactly the expired entries and keeps every other one as it was. */
  lemma CleanedSpec(t: Table, now: int, level: Option<Level>)
    requires WellFormed(t)
    ensures var r := Cleaned(t, now, level);
            && WellFormed(r)
            && (forall k :: k in r.entries <==> k in t.entries && !Expired(t.entries[k], now, level))
            && (forall k | k in r.entries :: r.entries[k] == t.entries[k])
            && |r.order| <= |t.order|
  {
    FreshKeysMembers(t.order, t.entries, now, level);
  }

  /** Cleaning twice at the same time removes nothing more. */
  lemma CleanedIdempotent(t: Table, now: int, level: Option<Level>)
    requires WellFormed(t)
    ensures WellFormed(Cleaned(t, now, level))
    ensures Cleaned(Cleaned(t, now, level), now, level) == Cleaned(t, now, level)
  {
    CleanedSpec(t, now, level);
    CleanedOrderAgain(t, now, level);
    CleanedEntriesAgain(t, now, level);
  }

  lemma CleanedOrderAgain(t: Table, now: int, level: Option<Level>)
    ensures Cleaned(Cleaned(t, now, level), now, level).order == Cleaned(t, now, level).order
  {
    var r := Cleaned(t, now, level);
    FreshKeysMembers(t.order, t.entries, now, level);
    forall j | 0 <= j < |r.order|
      ensures !Stale(r.entries, r.order[j], now, level)
    {
      assert r.order[j] in r.order;
    }
    FreshKeysKeepsFresh(r.order, r.entries, now, level);
  }

  lemma CleanedEntriesAgain(t: Table, now: int, level: Option<Level>)
    ensures Cleaned(Cleaned(t, now, level), now, level).entries == Cleaned(t, now, level).entries
  {
    var r := Cleaned(t, now, level);
    var again := Cleaned(r, now, level).entries;
    forall k
      ensures k in again <==> k in r.entries
    {
    }
    assert again == r.entries;
  }

  lemma {:induction false} FreshKeysKeepsFresh(s: seq<string>, entries: map<string, Entry>, now: int, level: Option<Level>)
    requires forall j | 0 <= j < |s| :: !Stale(entries, s[j], now, level)
    ensures FreshKeys(s, entries, now, level) == s
    decreases |s|
  {
    if s != [] {
      var front, last := s[..|s| - 1], s[|s| - 1];
      forall j | 0 <= j < |front|
        ensures !Stale(entries, front[j], now, level)
      {
        assert front[j] == s[j];
      }
      FreshKeysKeepsFresh(front, entries, now, level);
      assert FreshKeys(s, entries, now, level) == front + [last];
      assert front + [last] == s;
    }
  }

  // ------------------------------------------------------------ the object

  /** `TranspositionTable`: the table, its capacity, the hit and miss counters and the difficulty
      level the owning engine copied in (`None` until `setDifficulty`). */
  class TranspositionTable {
    var table: Table
    const maxSize: int
    var hits: nat
    var misses: nat
    var level: Option<Level>

    ghost predicate Valid()
      reads this
    {
      WellFormed(table)
    }

    constructor (maxSize: int)
      ensures Valid() && table == EMPTY_TABLE && this.maxSize == maxSize
      ensures hits == 0 && misses == 0 && level == None
    {
      table := EMPTY_TABLE;
      this.maxSize := maxSize;
      hits := 0;
      misses := 0;
      level := None;
    }

    /** `store(key, depth, value, type, bestMove)` at time `now`. */
    method Store(key: string, depth: int, value: int, kind: Bound, bestMove: Option<Move>, now: int)
      requires Valid()
      modifies this
      ensures Valid()
      ensures table == StoreInto(old(table), maxSize, key, Entry(depth, value, kind, bestMove, now))
      ensures hits == old(hits) && misses == old(misses) && level == old(level)
    {
      StoreSpec(table, maxSize, key, Entry(depth, value, kind, bestMove, now));
      if |table.order| >= maxSize && table.order != [] {
        var oldest := table.order[0];
        table := Delete(table, oldest);
      }
      table := Set(table, key, Entry(depth, value, kind, bestMove, now));
    }

    /** `lookup(key, depth, alpha, beta)` at time `now`: a missing key counts a miss and changes
        nothing else; an expired entry is deleted; an entry deep enough counts a hit; the entry is
        returned exactly when `Probe` gives it. */
    method Lookup(key: string, depth: int, alpha: int, beta: int, now: int) returns (r: Option<Entry>)
      requires Valid()
      modifies this
      ensures Valid() && level == old(level)
      ensures r == Probe(old(table), level, key, depth, alpha, beta, now)
      ensures key !in old(table.entries) ==> table == old(table) && misses == old(misses) + 1 && hits == old(hits)
      ensures key in old(table.entries) && Expired(old(table.entries[key]), now, level)
              ==> table == Delete(old(table), key) && misses == old(misses) && hits == old(hits)
      ensures key in old(table.entries) && !Expired(old(table.entries[key]), now, level)
              ==> table == old(table) && misses == old(misses)
                  && hits == old(hits) + (if CountsHit(old(table), level, key, depth, now) then 1 else 0)
    {
      if key !in table.entries {
        misses := misses + 1;
        return None;
      }
      var entry := table.entries[key];
      if level.Some? && now - entry.timestamp > RetentionTime(level.value) {
        table := Delete(table, key);
        return None;
      }
      r := None;
      if entry.depth >= depth {
        hits := hits + 1;
        if entry.kind == Exact {
          r := Some(entry);
        } else if entry.kind == LowerBound && entry.value >= beta {
          r := Some(entry);
        } else if entry.kind == UpperBound && entry.value <= alpha {
          r := Some(entry);
        }
      }
    }

    /** `cleanup()` at time `now`: walks the entries in insertion order, deleting each expired one. */
    method Cleanup(now: int)
      requires Valid()
      modifies this
      ensures Valid()
      ensures table == Cleaned(old(table), now, level)
      ensures hits == old(hits) && misses == old(misses) && level == old(level)
    {
      var keys := table.order;
      var entries := table.entries;
      var i := 0;
      while i < |keys|
        invariant 0 <= i <= |keys|
        invariant keys == old(table).order && entries == old(table).entries
        invariant table == Walked(old(table), i, now, level)
        invariant hits == old(hits) && misses == old(misses) && level == old(level)
      {
        var k := keys[i];
        assert k in keys;
        ghost var expired := Stale(entries, k, now, level);
        ghost var next := Walked(old(table), i + 1, now, level);
        assert next == if expired then Delete(table, k) else table;
        if level.Some? && now - entries[k].timestamp > RetentionTime(level.value) {
          table := Delete(table, k);
        }
        i := i + 1;
      }
      WalkedCleans(old(table), now, level);
      CleanedSpec(old(table), now, level);
    }
  }

  /** The table after the cleanup walk has visited the first `i` keys of `t`, each expired one
      deleted as it is met. */
  function Walked(t: Table, i: int, now: int, level: Option<Level>): Table
    requires 0 <= i <= |t.order|
  {
    if i == 0 then t
    else
      var k := t.order[i - 1];
      var prev := Walked(t, i - 1, now, level);
      if Stale(t.entries, k, now, level) then Delete(prev, k) else prev
  }

  /** The completed walk leaves exactly the cleaned table. */
  lemma WalkedCleans(t: Table, now: int, level: Option<Level>)
    requires WellFormed(t)
    ensures Walked(t, |t.order|, now, level) == Cleaned(t, now, level)
  {
    WalkedOrder(t, |t.order|, now, level);
    WalkedEntries(t, |t.order|, now, level);
    CleanedEnd(t, now, level);
  }

  /** Midway through, the walk has removed the stale keys among the first `i` from the order. */
  lemma {:induction false} WalkedOrder(t: Table, i: int, now: int, level: Option<Level>)
    requires Distinct(t.order) && 0 <= i <= |t.order|
    ensures Walked(t, i, now, level).order == CleanedOrder(t.order, t.entries, i, now, level)
  {
    if i == 0 {
      CleanedStart(t.order, t.entries, now, level);
    } else {
      WalkedOrder(t, i - 1, now, level);
      OrderStep(t.order, t.entries, i - 1, now, level);
    }
  }

  /** Midway through, the walk has removed the stale entries among the first `i` keys. */
  lemma {:induction false} WalkedEntries(t: Table, i: int, now: int, level: Option<Level>)
    requires 0 <= i <= |t.order|
    ensures Walked(t, i, now, level).entries == CleanedEntries(t.order, t.entries, i, now, level)
  {
    if i == 0 {
      CleanedStart(t.order, t.entries, now, level);
    } else {
      WalkedEntries(t, i - 1, now, level);
      EntriesStep(t.order, t.entries, i - 1, now, level);
    }
  }

  /** The order `cleanup` has left after visiting the first `i` keys. */
  function CleanedOrder(keys: seq<string>, entries: map<string, Entry>, i: int, now: int, level: Option<Level>): seq<string>
    requires 0 <= i <= |keys|
  {
    FreshKeys(keys[..i], entries, now, level) + keys[i..]
  }

  /** The entries `cleanup` has left after visiting the first `i` keys. */
  function CleanedEntries(keys: seq<string>, entries: map<string, Entry>, i: int, now: int, level: Option<Level>): map<string, Entry>
    requires 0 <= i <= |keys|
  {
    map k | k in entries && !(k in keys[..i] && Stale(entries, k, now, level)) :: entries[k]
  }

  /** Before the walk nothing has been removed. */
  lemma CleanedStart(keys: seq<string>, entries: map<string, Entry>, now: int, level: Option<Level>)
    ensures CleanedOrder(keys, entries, 0, now, level) == keys
    ensures CleanedEntries(keys, entries, 0, now, level) == entries
  {
    assert keys[..0] == [] && keys[0..] == keys;
  }

  /** After the walk the table is exactly the cleaned one. */
  lemma CleanedEnd(t: Table, now: int, level: Option<Level>)
    requires WellFormed(t)
    ensures Table(CleanedOrder(t.order, t.entries, |t.order|, now, level),
                  CleanedEntries(t.order, t.entries, |t.order|, now, level)) == Cleaned(t, now, level)
  {
    var n := |t.order|;
    assert t.order[..n] == t.order;
    assert CleanedOrder(t.order, t.entries, n, now, level) == FreshKeys(t.order, t.entries, now, level) + [];
    assert CleanedEntries(t.order, t.entries, n, now, level) == Cleaned(t, now, level).entries;
  }

  /** Visiting key `i` removes it from the order when it is stale. */
  lemma OrderStep(keys: seq<string>, entries: map<string, Entry>, i: int, now: int, level: Option<Level>)
    requires 0 <= i < |keys| && Distinct(keys)
    ensures CleanedOrder(keys, entries, i + 1, now, level)
            == if Stale(entries, keys[i], now, level) then Without(CleanedOrder(keys, entries, i, now, level), keys[i])
               else CleanedOrder(keys, entries, i, now, level)
  {
    var k := keys[i];
    var front := FreshKeys(keys[..i], entries, now, level);
    FreshKeysSnoc(keys, i, entries, now, level);
    if Stale(entries, k, now, level) {
      assert CleanedOrder(keys, entries, i + 1, now, level) == front + keys[i + 1..];
      RemoveAfterFresh(keys, i, entries, now, level);
    } else {
      assert CleanedOrder(keys, entries, i + 1, now, level) == (front + [k]) + keys[i + 1..];
      assert keys[i..] == [k] + keys[i + 1..];
      ConcatAssoc(front, [k], keys[i + 1..]);
    }
  }

  /** Visiting key `i` removes its entry when it is stale. */
  lemma EntriesStep(keys: seq<string>, entries: map<string, Entry>, i: int, now: int, level: Option<Level>)
    requires 0 <= i < |keys|
    ensures CleanedEntries(keys, entries, i + 1, now, level)
            == if Stale(entries, keys[i], now, level) then CleanedEntries(keys, entries, i, now, level) - {keys[i]}
               else CleanedEntries(keys, entries, i, now, level)
  {
    assert keys[..i + 1] == keys[..i] + [keys[i]];
  }

  /** Extending the scanned prefix by one key extends its fresh keys by that key when fresh. */
  lemma FreshKeysSnoc(keys: seq<string>, i: int, entries: map<string, Entry>, now: int, level: Option<Level>)
    requires 0 <= i < |keys|
    ensures FreshKeys(keys[..i + 1], entries, now, level)
            == FreshKeys(keys[..i], entries, now, level) + (if Stale(entries, keys[i], now, level) then [] else [keys[i]])
  {
    assert keys[..i + 1][..i] == keys[..i];
  }

  /** In a distinct order, deleting the key at position `i` from the partly cleaned order removes
      it from the unscanned part only. */
  lemma RemoveAfterFresh(keys: seq<string>, i: int, entries: map<string, Entry>, now: int, level: Option<Level>)
    requires 0 <= i < |keys| && Distinct(keys)
    ensures Without(FreshKeys(keys[..i], entries, now, level) + keys[i..], keys[i])
            == FreshKeys(keys[..i], entries, now, level) + keys[i + 1..]
  {
    var front := FreshKeys(keys[..i], entries, now, level);
    FreshKeysMembers(keys[..i], entries, now, level);
    assert keys[i] !in keys[..i];
    assert keys[i] !in keys[i + 1..];
    WithoutAppend(front, keys[i..], keys[i]);
    assert keys[i..] == [keys[i]] + keys[i + 1..];
  }

  lemma {:induction false} WithoutAppend(a: seq<string>, b: seq<string>, k: string)
    requires k !in a && b != [] && b[0] == k && k !in b[1..]
    ensures Without(a + b, k) == a + b[1..]
  {
    if a == [] {
      assert a + b == b;
    } else {
      assert (a + b)[1..] == a[1..] + b;
      WithoutAppend(a[1..], b, k);
    }
  }
}
