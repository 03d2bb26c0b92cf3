// The prompt-prefix cache: longest compatible prefix lookup and least-recently-used eviction with
// exact byte accounting, proved against a list of entries kept in order of last use.
module PrefixCaching {
  import opened Wrappers
  import opened Arithmetic

  const USIZE_MAX := 0xffff_ffff_ffff_ffff
  const U64_LIMIT := 0x1_0000_0000_0000_0000
  const TOKEN_BYTES := 4

  type Usize = n: nat | n <= USIZE_MAX

  datatype Config = Config(enabled: bool, maxEntries: Usize, maxBytes: Usize, minPrefixTokens: Usize)

  // The exact-match part of a key: load epoch, template and options, compared as a whole.
  type Compatibility = int
  type Token = int

  datatype Entry<S> = Entry(compatibility: Compatibility, tokens: seq<Token>, state: S, bytes: Usize, lastUsed: nat)

  function SaturatingAdd(a: nat, b: nat): Usize {
    if a + b > USIZE_MAX then USIZE_MAX else a + b
  }

  function SaturatingSub(a: nat, b: nat): nat {
    if a < b then 0 else a - b
  }

  // An entry weighs its state and four bytes a token, as far as a machine word can say.
  function EntryBytes(tokens: seq<Token>, stateBytes: Usize): (r: Usize)
    ensures r == Min(USIZE_MAX, stateBytes + 4 * |tokens|)
  {
    var tokenBytes := if |tokens| * TOKEN_BYTES > USIZE_MAX then USIZE_MAX else |tokens| * TOKEN_BYTES;
    SaturatingAdd(stateBytes, tokenBytes)
  }

  // ----- The specification: entries, most recently used first -----

  predicate SameKey<S>(e: Entry<S>, compatibility: Compatibility, tokens: seq<Token>) {
    e.compatibility == compatibility && e.tokens == tokens
  }

  // Usable for a prompt: the same compatibility, and a proper prefix of its tokens.
  predicate Usable<S>(e: Entry<S>, compatibility: Compatibility, tokens: seq<Token>) {
    e.compatibility == compatibility && |e.tokens| < |tokens| && e.tokens <= tokens
  }

  function TotalBytes<S>(entries: seq<Entry<S>>): nat {
    if entries == [] then 0 else entries[0].bytes + TotalBytes(entries[1..])
  }

  function WithoutKey<S>(entries: seq<Entry<S>>, compatibility: Compatibility, tokens: seq<Token>): seq<Entry<S>> {
    if entries == [] then []
    else if SameKey(entries[0], compatibility, tokens) then WithoutKey(entries[1..], compatibility, tokens)
    else [entries[0]] + WithoutKey(entries[1..], compatibility, tokens)
  }

  predicate Fits<S>(entries: seq<Entry<S>>, maxEntries: nat, maxBytes: nat) {
    |entries| <= maxEntries && TotalBytes(entries) <= maxBytes
  }

  // The most recently used entries, as many as fit.
  function Kept<S>(entries: seq<Entry<S>>, maxEntries: nat, maxBytes: nat): seq<Entry<S>> {
    if Fits(entries, maxEntries, maxBytes) || entries == [] then entries
    else Kept(entries[..|entries| - 1], maxEntries, maxBytes)
  }

  lemma {:induction false} TotalOfConcat<S>(a: seq<Entry<S>>, b: seq<Entry<S>>)
    ensures TotalBytes(a + b) == TotalBytes(a) + TotalBytes(b)
  {
    if a == [] {
      assert a + b == b;
    } else {
      TotalOfConcat(a[1..], b);
      assert (a + b)[1..] == a[1..] + b;
    }
  }

  // Exactly the longest run of most recently used entries that fits both limits.
  lemma {:induction false} KeptIsLongest<S>(entries: seq<Entry<S>>, maxEntries: nat, maxBytes: nat, n: nat)
    requires n <= |entries|
    ensures Kept(entries, maxEntries, maxBytes) <= entries
    ensures Fits(Kept(entries, maxEntries, maxBytes), maxEntries, maxBytes)
    ensures n <= |Kept(entries, maxEntries, maxBytes)| <==> Fits(entries[..n], maxEntries, maxBytes)
  {
    if Fits(entries, maxEntries, maxBytes) || entries == [] {
      TotalOfConcat(entries[..n], entries[n..]);
      assert entries[..n] + entries[n..] == entries;
    } else {
      var front := entries[..|entries| - 1];
      if n == |entries| {
        assert entries[..n] == entries;
        KeptIsLongest(front, maxEntries, maxBytes, |front|);
      } else {
        assert front[..n] == entries[..n];
        KeptIsLongest(front, maxEntries, maxBytes, n);
      }
    }
  }

  // The entry just accepted survives its own insertion.
  lemma NewestSurvives<S>(newest: Entry<S>, others: seq<Entry<S>>, maxEntries: nat, maxBytes: nat)
    requires maxEntries >= 1 && newest.bytes <= maxBytes
    ensures Kept([newest] + others, maxEntries, maxBytes) != []
    ensures Kept([newest] + others, maxEntries, maxBytes)[0] == newest
  {
    var all := [newest] + others;
    assert all[..1] == [newest] && TotalBytes([newest]) == newest.bytes;
    KeptIsLongest(all, maxEntries, maxBytes, 1);
  }

  predicate Newer<S>(a: Entry<S>, b: Entry<S>) {
    a.lastUsed > b.lastUsed
  }

  predicate UsedBy<S>(e: Entry<S>, clock: nat) {
    e.lastUsed <= clock
  }

  ghost predicate Ordered<S>(recency: seq<Entry<S>>, clock: nat) {
    && (forall i, j {:trigger Newer(recency[i], recency[j])} :: 0 <= i < j < |recency| ==>
      Newer(recency[i], recency[j]))
    && (forall i {:trigger UsedBy(recency[i], clock)} :: 0 <= i < |recency| ==> UsedBy(recency[i], clock))
  }

  ghost predicate DistinctKeys<S>(entries: seq<Entry<S>>) {
    forall i, j :: 0 <= i < j < |entries| ==> !SameKey(entries[i], entries[j].compatibility, entries[j].tokens)
  }

  function RemoveAt<T>(s: seq<T>, i: nat): seq<T>
    requires i < |s|
  {
    s[..i] + s[i + 1..]
  }

  lemma RemovedOnce<T>(s: seq<T>, i: nat)
    requires i < |s|
    ensures multiset(s) == multiset(RemoveAt(s, i)) + multiset{s[i]}
  {
    assert s == s[..i] + [s[i]] + s[i + 1..];
  }

  lemma {:induction false} WithoutAbsentKey<S>(entries: seq<Entry<S>>, compatibility: Compatibility, tokens: seq<Token>)
    requires forall i :: 0 <= i < |entries| ==> !SameKey(entries[i], compatibility, tokens)
    ensures WithoutKey(entries, compatibility, tokens) == entries
  {
    if entries != [] {
      WithoutAbsentKey(entries[1..], compatibility, tokens);
    }
  }

  // Exactly the entries with the key are left out, and the others keep their order.
  lemma {:induction false} WithoutKeyExact<S>(
    entries: seq<Entry<S>>, compatibility: Compatibility, tokens: seq<Token>, e: Entry<S>)
    ensures e in WithoutKey(entries, compatibility, tokens) <==>
      e in entries && !(e.compatibility == compatibility && e.tokens == tokens)
  {
    if entries != [] {
      WithoutKeyExact(entries[1..], compatibility, tokens, e);
    }
  }

  lemma {:induction false} WithoutKeyOfConcat<S>(
    a: seq<Entry<S>>, b: seq<Entry<S>>, compatibility: Compatibility, tokens: seq<Token>)
    ensures WithoutKey(a + b, compatibility, tokens) ==
      WithoutKey(a, compatibility, tokens) + WithoutKey(b, compatibility, tokens)
  {
    if a == [] {
      assert a + b == b;
    } else {
      WithoutKeyOfConcat(a[1..], b, compatibility, tokens);
      assert (a + b)[0] == a[0] && (a + b)[1..] == a[1..] + b;
    }
  }

  lemma {:induction false} WithoutKeyAt<S>(entries: seq<Entry<S>>, j: nat)
    requires DistinctKeys(entries) && j < |entries|
    ensures WithoutKey(entries, entries[j].compatibility, entries[j].tokens) == RemoveAt(entries, j)
  {
    var e := entries[j];
    if j == 0 {
      WithoutAbsentKey(entries[1..], e.compatibility, e.tokens);
    } else {
      assert !SameKey(entries[0], e.compatibility, e.tokens);
      WithoutKeyAt(entries[1..], j - 1);
      assert RemoveAt(entries, j) == [entries[0]] + RemoveAt(entries[1..], j - 1);
    }
  }

  // The recency list holds the entries, its keys and times are distinct, and the byte count is exact.
  ghost predicate Tracks<S>(entries: seq<Entry<S>>, recency: seq<Entry<S>>, bytes: nat, clock: nat) {
    && multiset(entries) == multiset(recency)
    && Ordered(recency, clock)
    && DistinctKeys(recency)
    && bytes == TotalBytes(recency)
  }

  lemma MembersAgree<S>(entries: seq<Entry<S>>, recency: seq<Entry<S>>)
    requires multiset(entries) == multiset(recency)
    ensures |entries| == |recency|
    ensures forall e :: e in entries <==> e in recency
  {
    assert |multiset(entries)| == |multiset(recency)|;
    forall e
      ensures e in entries <==> e in recency
    {
      assert e in multiset(entries) <==> e in multiset(recency);
    }
  }

  lemma SameSize<S>(entries: seq<Entry<S>>, recency: seq<Entry<S>>)
    requires multiset(entries) == multiset(recency)
    ensures |entries| == |recency|
  {
    MembersAgree(entries, recency);
  }

  // Two usable entries of the same length would have the same key.
  lemma LongestIsUnique<S>(recency: seq<Entry<S>>, e: Entry<S>, compatibility: Compatibility, tokens: seq<Token>)
    requires DistinctKeys(recency) && e in recency && Usable(e, compatibility, tokens)
    requires forall other :: other in recency && Usable(other, compatibility, tokens) ==> |other.tokens| <= |e.tokens|
    ensures forall other :: other in recency && other != e && Usable(other, compatibility, tokens) ==>
      |other.tokens| < |e.tokens|
  {
  }

  lemma KeysDiffer<S>(entries: seq<Entry<S>>, i: nat, j: nat)
    requires DistinctKeys(entries) && i < |entries| && j < |entries| && i != j
    ensures !SameKey(entries[i], entries[j].compatibility, entries[j].tokens)
  {
  }

  // Taking one entry out of both lists.
  lemma Removed<S>(entries: seq<Entry<S>>, recency: seq<Entry<S>>, bytes: nat, clock: nat, i: nat) returns (j: nat)
    requires Tracks(entries, recency, bytes, clock) && i < |entries|
    ensures j < |recency| && recency[j] == entries[i]
    ensures RemoveAt(recency, j) == WithoutKey(recency, entries[i].compatibility, entries[i].tokens)
    ensures forall k :: 0 <= k < |recency| - 1 ==>
      !SameKey(RemoveAt(recency, j)[k], entries[i].compatibility, entries[i].tokens)
    ensures bytes >= entries[i].bytes
    ensures Tracks(RemoveAt(entries, i), RemoveAt(recency, j), bytes - entries[i].bytes, clock)
  {
    MembersAgree(entries, recency);
    assert entries[i] in recency;
    j :| 0 <= j < |recency| && recency[j] == entries[i];
    WithoutKeyAt(recency, j);
    SameRest(entries, i, recency, j);
    RemovedBytes(recency, j);
    RemovedOrder(recency, clock, j);
  }

  lemma SameRest<T>(a: seq<T>, i: nat, b: seq<T>, j: nat)
    requires multiset(a) == multiset(b) && i < |a| && j < |b| && a[i] == b[j]
    ensures multiset(RemoveAt(a, i)) == multiset(RemoveAt(b, j))
  {
    RemovedOnce(a, i);
    RemovedOnce(b, j);
    assert multiset(RemoveAt(a, i)) == multiset(a) - multiset{a[i]};
    assert multiset(RemoveAt(b, j)) == multiset(b) - multiset{b[j]};
  }

  // The oldest entry is the last of the recency list.
  lemma EvictOldest<S>(entries: seq<Entry<S>>, recency: seq<Entry<S>>, bytes: nat, clock: nat, index: nat)
    returns (next: seq<Entry<S>>)
    requires Tracks(entries, recency, bytes, clock) && index < |entries|
    requires forall i :: 0 <= i < |entries| ==> entries[index].lastUsed <= entries[i].lastUsed
    ensures recency != [] && next == recency[..|recency| - 1]
    ensures bytes >= entries[index].bytes
    ensures Tracks(RemoveAt(entries, index), next, bytes - entries[index].bytes, clock)
  {
    var j := Removed(entries, recency, bytes, clock, index);
    MembersAgree(entries, recency);
    assert recency[|recency| - 1] in entries;
    assert j < |recency| - 1 ==> Newer(recency[j], recency[|recency| - 1]);
    next := recency[..j];
    assert RemoveAt(recency, j) == next;
  }

  lemma {:induction false} RemovedBytes<S>(s: seq<Entry<S>>, j: nat)
    requires j < |s|
    ensures TotalBytes(s) == TotalBytes(RemoveAt(s, j)) + s[j].bytes
  {
    if j == 0 {
      assert RemoveAt(s, 0) == s[1..];
    } else {
      RemovedBytes(s[1..], j - 1);
      var rest := RemoveAt(s, j);
      assert rest[0] == s[0] && rest[1..] == RemoveAt(s[1..], j - 1);
    }
  }

  lemma RemovedOrder<S>(s: seq<Entry<S>>, clock: nat, j: nat)
    requires Ordered(s, clock) && DistinctKeys(s) && j < |s|
    ensures Ordered(RemoveAt(s, j), clock) && DistinctKeys(RemoveAt(s, j))
    ensures forall k :: 0 <= k < |s| - 1 ==> !SameKey(RemoveAt(s, j)[k], s[j].compatibility, s[j].tokens)
  {
  }

  lemma KeyIsAbsent<S>(
    entries: seq<Entry<S>>, recency: seq<Entry<S>>, compatibility: Compatibility, tokens: seq<Token>)
    requires forall e :: e in entries <==> e in recency
    requires forall i :: 0 <= i < |entries| ==> !SameKey(entries[i], compatibility, tokens)
    ensures WithoutKey(recency, compatibility, tokens) == recency
    ensures forall i :: 0 <= i < |recency| ==> !SameKey(recency[i], compatibility, tokens)
  {
    forall i | 0 <= i < |recency|
      ensures !SameKey(recency[i], compatibility, tokens)
    {
      assert recency[i] in entries;
    }
    WithoutAbsentKey(recency, compatibility, tokens);
  }

  // Adding an entry with a new key at a new time.
  lemma Added<S>(entries: seq<Entry<S>>, recency: seq<Entry<S>>, bytes: nat, clock: nat, e: Entry<S>)
    requires Tracks(entries, recency, bytes, clock) && e.lastUsed == clock + 1
    requires forall i :: 0 <= i < |recency| ==> !SameKey(recency[i], e.compatibility, e.tokens)
    ensures Tracks(entries + [e], [e] + recency, bytes + e.bytes, clock + 1)
  {
    var all := [e] + recency;
    forall a, b | 0 <= a < b < |all|
      ensures !SameKey(all[a], all[b].compatibility, all[b].tokens)
      ensures Newer(all[a], all[b])
    {
      assert UsedBy(recency[b - 1], clock);
      if a > 0 {
        KeysDiffer(recency, a - 1, b - 1);
        assert Newer(recency[a - 1], recency[b - 1]);
      }
    }
    forall a | 0 <= a < |all|
      ensures UsedBy(all[a], clock + 1)
    {
      assert a > 0 ==> UsedBy(recency[a - 1], clock);
    }
  }

  // Marking an entry as just used moves it to the front.
  lemma Touched<S>(entries: seq<Entry<S>>, recency: seq<Entry<S>>, bytes: nat, clock: nat, i: nat, e: Entry<S>)
    returns (j: nat, next: seq<Entry<S>>)
    requires Tracks(entries, recency, bytes, clock)
    requires i < |entries| && e == entries[i].(lastUsed := clock + 1)
    ensures j < |recency| && recency[j] == entries[i]
    ensures MovesToFront(recency, j, e, next)
    ensures Tracks(entries[i := e], next, bytes, clock + 1)
  {
    j := Removed(entries, recency, bytes, clock, i);
    next := [e] + RemoveAt(recency, j);
    Added(RemoveAt(entries, i), RemoveAt(recency, j), bytes - e.bytes, clock, e);
    UpdatedElements(entries, i, e);
    FrontMoves(recency, j, e);
  }

  lemma UpdatedElements<T>(s: seq<T>, i: nat, e: T)
    requires i < |s|
    ensures multiset(s[i := e]) == multiset(RemoveAt(s, i) + [e])
  {
    RemovedOnce(s[i := e], i);
    assert RemoveAt(s[i := e], i) == RemoveAt(s, i);
  }

  lemma FrontMoves<S>(recency: seq<Entry<S>>, j: nat, e: Entry<S>)
    requires j < |recency|
    ensures MovesToFront(recency, j, e, [e] + RemoveAt(recency, j))
  {
  }

  // The entry at j moves to the front, as `e`; those before it move back by one.
  ghost predicate MovesToFront<S>(recency: seq<Entry<S>>, j: nat, e: Entry<S>, next: seq<Entry<S>>) {
    && j < |recency| == |next|
    && next[0] == e
    && (forall k :: 0 <= k < j ==> next[k + 1] == recency[k])
    && (forall k :: j < k < |recency| ==> next[k] == recency[k])
  }

  // ----- Searches over the entry list -----

  // The usable entry with the most tokens among the first n; the last one on a tie.
  function LongestUsable<S>(
    entries: seq<Entry<S>>, n: nat, compatibility: Compatibility, tokens: seq<Token>): (r: Option<nat>)
    requires n <= |entries|
    ensures r.Some? ==> r.value < n && Usable(entries[r.value], compatibility, tokens)
    ensures forall i :: 0 <= i < n && Usable(entries[i], compatibility, tokens) ==>
      r.Some? && |entries[i].tokens| <= |entries[r.value].tokens|
  {
    if n == 0 then None
    else
      var best := LongestUsable(entries, n - 1, compatibility, tokens);
      if !Usable(entries[n - 1], compatibility, tokens) then best
      else if best.Some? && |entries[best.value].tokens| > |entries[n - 1].tokens| then best
      else Some(n - 1)
  }

  function Position<S>(
    entries: seq<Entry<S>>, from: nat, compatibility: Compatibility, tokens: seq<Token>): (r: Option<nat>)
    requires from <= |entries|
    ensures r.Some? ==> r.value < |entries| && SameKey(entries[r.value], compatibility, tokens)
    ensures r.None? ==> forall i :: from <= i < |entries| ==> !SameKey(entries[i], compatibility, tokens)
    decreases |entries| - from
  {
    if from == |entries| then None
    else if SameKey(entries[from], compatibility, tokens) then Some(from)
    else Position(entries, from + 1, compatibility, tokens)
  }

  function OldestIndex<S>(entries: seq<Entry<S>>, n: nat): (r: nat)
    requires 0 < n <= |entries|
    ensures r < n && forall i :: 0 <= i < n ==> entries[r].lastUsed <= entries[i].lastUsed
  {
    if n == 1 then 0
    else
      var r := OldestIndex(entries, n - 1);
      if entries[n - 1].lastUsed < entries[r].lastUsed then n - 1 else r
  }

  // ----- The cache -----

  class PrefixCache<S(==)> {
    const config: Config
    var entries: seq<Entry<S>>
    var bytes: Usize
    var clock: nat
    var enabled: bool

    // The same entries, most recently used first.
    ghost var recency: seq<Entry<S>>

    constructor (config: Config)
      requires 2 * config.maxBytes <= USIZE_MAX
      ensures Valid() && recency == [] && enabled == config.enabled && this.config == config
    {
      this.config := config;
      entries, bytes, clock, enabled, recency := [], 0, 0, config.enabled, [];
    }

    ghost predicate Valid()
      reads this
    {
      && 2 * config.maxBytes <= USIZE_MAX
      && Tracks(entries, recency, bytes, clock)
      && Fits(recency, config.maxEntries, config.maxBytes)
    }

    // The longest usable prefix, which becomes the most recently used entry.
    method Lookup(compatibility: Compatibility, tokens: seq<Token>) returns (r: Option<(nat, S)>)
      requires Valid() && clock + 1 < U64_LIMIT
      modifies this
      ensures Valid() && enabled == old(enabled)
      ensures r.None? ==>
        && recency == old(recency) && entries == old(entries) && bytes == old(bytes) && clock == old(clock)
        && (enabled ==>
             forall e :: e in old(recency) && e.compatibility == compatibility ==> !(e.tokens < tokens))
      ensures r.Some? ==> enabled && clock == old(clock) + 1 && exists j ::
        && 0 <= j < |old(recency)|
        && old(recency)[j].compatibility == compatibility && old(recency)[j].tokens < tokens
        && r.value == (|old(recency)[j].tokens|, old(recency)[j].state)
        && (forall other :: other in old(recency) && other != old(recency)[j] ==>
              other.compatibility == compatibility && other.tokens < tokens ==>
              |other.tokens| < |old(recency)[j].tokens|)
        && MovesToFront(old(recency), j, old(recency)[j].(lastUsed := clock), recency)
    {
      if !enabled {
        return None;
      }
      var index := LongestUsable(entries, |entries|, compatibility, tokens);
      MembersAgree(entries, recency);
      if index.None? {
        return None;
      }
      LongestIsUnique(recency, entries[index.value], compatibility, tokens);
      ghost var j := Touch(index.value);
      r := Some((|entries[index.value].tokens|, entries[index.value].state));
      assert Usable(old(recency)[j], compatibility, tokens);
    }

    method Touch(index: nat) returns (ghost j: nat)
      requires Valid() && index < |entries| && clock + 1 < U64_LIMIT
      modifies `entries, `clock, `recency
      ensures Valid()
      ensures clock == old(clock) + 1
      ensures |entries| == |old(entries)| && entries[index] == old(entries[index]).(lastUsed := clock)
      ensures j < |old(recency)| && old(recency)[j] == old(entries[index])
      ensures MovesToFront(old(recency), j, entries[index], recency)
    {
      var e := entries[index].(lastUsed := clock + 1);
      ghost var next;
      j, next := Touched(entries, recency, bytes, clock, index, e);
      clock := clock + 1;
      entries := entries[index := e];
      recency := next;
    }

    method Insert(compatibility: Compatibility, tokens: seq<Token>, state: S, stateBytes: Usize)
      requires Valid() && clock + 1 < U64_LIMIT
      modifies this
      ensures Valid() && enabled == old(enabled)
      ensures var size := stateBytes + 4 * |tokens|;
        if !enabled || |tokens| < config.minPrefixTokens || size > config.maxBytes then
          recency == old(recency) && entries == old(entries) && bytes == old(bytes) && clock == old(clock)
        else
          var newest := Entry(compatibility, tokens, state, size, clock);
          clock == old(clock) + 1 &&
          recency == Kept(
            [newest] + WithoutKey(old(recency), compatibility, tokens), config.maxEntries, config.maxBytes)
    {
      if !enabled || |tokens| < config.minPrefixTokens {
        return;
      }
      var size := EntryBytes(tokens, stateBytes);
      if size > config.maxBytes {
        return;
      }
      Accept(compatibility, tokens, state, size);
    }

    method Accept(compatibility: Compatibility, tokens: seq<Token>, state: S, size: Usize)
      requires Valid() && clock + 1 < U64_LIMIT && size <= config.maxBytes
      modifies `entries, `bytes, `clock, `recency
      ensures Valid() && clock == old(clock) + 1
      ensures var newest := Entry(compatibility, tokens, state, size, clock);
        recency == Kept(
          [newest] + WithoutKey(old(recency), compatibility, tokens), config.maxEntries, config.maxBytes)
    {
      RemoveKey(compatibility, tokens);
      clock := clock + 1;
      Added(entries, recency, bytes, clock - 1, Entry(compatibility, tokens, state, size, clock));
      bytes := SaturatingAdd(bytes, size);
      entries := entries + [Entry(compatibility, tokens, state, size, clock)];
      recency := [Entry(compatibility, tokens, state, size, clock)] + recency;
      Evict();
    }

    method RemoveKey(compatibility: Compatibility, tokens: seq<Token>)
      requires Valid()
      modifies `entries, `bytes, `recency
      ensures Valid() && recency == WithoutKey(old(recency), compatibility, tokens)
      ensures forall i :: 0 <= i < |recency| ==> !SameKey(recency[i], compatibility, tokens)
    {
      var index := Position(entries, 0, compatibility, tokens);
      MembersAgree(entries, recency);
      if index.Some? {
        ghost var j := Removed(entries, recency, bytes, clock, index.value);
        bytes := SaturatingSub(bytes, entries[index.value].bytes);
        entries := RemoveAt(entries, index.value);
        recency := RemoveAt(recency, j);
      } else {
        KeyIsAbsent(entries, recency, compatibility, tokens);
      }
    }

    // Drops the least recently used entries until both limits hold.
    method Evict()
      requires Tracks(entries, recency, bytes, clock)
      modifies `entries, `bytes, `recency
      ensures Tracks(entries, recency, bytes, clock)
      ensures recency == Kept(old(recency), config.maxEntries, config.maxBytes)
      ensures Fits(recency, config.maxEntries, config.maxBytes)
    {
      SameSize(entries, recency);
      while |entries| > config.maxEntries || bytes > config.maxBytes
        invariant Tracks(entries, recency, bytes, clock) && |entries| == |recency|
        invariant Kept(recency, config.maxEntries, config.maxBytes) ==
          Kept(old(recency), config.maxEntries, config.maxBytes)
        decreases |entries|
      {
        assert recency != [];
        EvictOne();
        SameSize(entries, recency);
      }
    }

    method EvictOne()
      requires Tracks(entries, recency, bytes, clock) && recency != []
      modifies `entries, `bytes, `recency
      ensures Tracks(entries, recency, bytes, clock)
      ensures recency == old(recency)[..|old(recency)| - 1]
    {
      MembersAgree(entries, recency);
      var index := OldestIndex(entries, |entries|);
      ghost var next := EvictOldest(entries, recency, bytes, clock, index);
      bytes := SaturatingSub(bytes, entries[index].bytes);
      entries := RemoveAt(entries, index);
      recency := next;
    }

    method Disable()
      requires Valid()
      modifies this
      ensures Valid() && !enabled && recency == [] && entries == [] && bytes == 0
    {
      entries := [];
      bytes := 0;
      enabled := false;
      recency := [];
    }
  }
}
