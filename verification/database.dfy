/**
  The pairing engine's in-memory store: thread records kept in insertion
  order, chat records that pair two of them, and the operations that look
  threads up, register a waiting thread, pair two waiting threads and route
  from one side of a chat to the other.

  A chat record holds references to its two thread records, and pairing
  flips the `status` of those very records. A reference is modelled as the
  record's position in the store: the store only ever grows, so positions
  never move.
 */
module Database {
  import opened Common

  datatype Status = Connecting | Connected | Closed

  datatype ThreadRecord = ThreadRecord(id: string, status: Status)

  /** A chat names its two thread records by their positions in the store. */
  datatype ChatRecord = ChatRecord(thread1: nat, thread2: nat)

  /** The whole store as a value: what `threads` and `chats` hold. */
  datatype Store = Store(threads: seq<ThreadRecord>, chats: seq<ChatRecord>)

  /**
    What `tryConnect` does: throw because the thread is unknown, throw
    because it is not waiting, return `null` because nobody else waits, or
    return the partner's id.
   */
  datatype ConnectResult = ThreadNotFound | NotConnecting | NoPartner | Paired(partner: string)

  datatype ConnectOutcome = ConnectOutcome(result: ConnectResult, after: Store)

  predicate Member(c: ChatRecord, r: nat) {
    c.thread1 == r || c.thread2 == r
  }

  /** Every chat points at records that exist. */
  predicate RefsValid(threads: seq<ThreadRecord>, chats: seq<ChatRecord>) {
    forall k :: 0 <= k < |chats| ==> chats[k].thread1 < |threads| && chats[k].thread2 < |threads|
  }

  /** The chat has a thread record with this id on one side or the other. */
  predicate Involves(threads: seq<ThreadRecord>, c: ChatRecord, id: string)
    requires c.thread1 < |threads| && c.thread2 < |threads|
  {
    threads[c.thread1].id == id || threads[c.thread2].id == id
  }

  /** A record `tryConnect` may pick as the partner of `id`. */
  predicate IsCandidate(t: ThreadRecord, id: string) {
    t.status == Connecting && t.id != id
  }

  /** Position `j` holds the last record with this id. */
  ghost predicate IsLastWithId(threads: seq<ThreadRecord>, j: int, id: string) {
    0 <= j < |threads| && threads[j].id == id &&
    forall j' :: j < j' < |threads| ==> threads[j'].id != id
  }

  /** Position `p` holds the last record that is a candidate partner of `id`. */
  ghost predicate IsLastCandidate(threads: seq<ThreadRecord>, p: int, id: string) {
    0 <= p < |threads| && IsCandidate(threads[p], id) &&
    forall j :: p < j < |threads| ==> !IsCandidate(threads[j], id)
  }

  /** `getThread`: the last record with the given id, if any. */
  function FindThread(threads: seq<ThreadRecord>, id: string): (r: Option<nat>)
    ensures r.Some? ==> IsLastWithId(threads, r.value, id)
    ensures r.None? ==> forall j :: 0 <= j < |threads| ==> threads[j].id != id
  {
    if |threads| == 0 then None
    else if threads[|threads| - 1].id == id then Some(|threads| - 1)
    else FindThread(threads[..|threads| - 1], id)
  }

  /** `getChat`: the last chat that has a thread with the given id on either side. */
  function FindChat(threads: seq<ThreadRecord>, chats: seq<ChatRecord>, id: string): (r: Option<nat>)
    requires RefsValid(threads, chats)
    ensures r.Some? ==> r.value < |chats| && Involves(threads, chats[r.value], id)
    ensures r.Some? ==> forall k :: r.value < k < |chats| ==> !Involves(threads, chats[k], id)
    ensures r.None? ==> forall k :: 0 <= k < |chats| ==> !Involves(threads, chats[k], id)
  {
    if |chats| == 0 then None
    else if Involves(threads, chats[|chats| - 1], id) then Some(|chats| - 1)
    else FindChat(threads, chats[..|chats| - 1], id)
  }

  /** The partner search of `tryConnect`: the last waiting record with another id. */
  function FindPartner(threads: seq<ThreadRecord>, id: string): (r: Option<nat>)
    ensures r.Some? ==> IsLastCandidate(threads, r.value, id)
    ensures r.None? ==> forall j :: 0 <= j < |threads| ==> !IsCandidate(threads[j], id)
  {
    if |threads| == 0 then None
    else if IsCandidate(threads[|threads| - 1], id) then Some(|threads| - 1)
    else FindPartner(threads[..|threads| - 1], id)
  }

  /** `getOtherThread`: the id on the other side of the chat found for `id`. */
  function OtherThread(s: Store, id: string): (r: Option<string>)
    requires RefsValid(s.threads, s.chats)
    ensures r.None? <==> forall k :: 0 <= k < |s.chats| ==> !Involves(s.threads, s.chats[k], id)
  {
    match FindChat(s.threads, s.chats, id)
    case None => None
    case Some(k) =>
      var c := s.chats[k];
      if s.threads[c.thread1].id == id then Some(s.threads[c.thread2].id)
      else Some(s.threads[c.thread1].id)
  }

  /**
    Statuses only move from connecting to connected, records keep their ids
    and positions, and chats are only ever appended.
   */
  ghost predicate Advances(s: Store, t: Store) {
    && |s.threads| <= |t.threads|
    && |s.chats| <= |t.chats| && t.chats[..|s.chats|] == s.chats
    && forall j :: 0 <= j < |s.threads| ==>
         && t.threads[j].id == s.threads[j].id
         && (t.threads[j].status == s.threads[j].status ||
             (s.threads[j].status == Connecting && t.threads[j].status == Connected))
  }

  /** `newThread`: a waiting record is appended; ids are not checked for duplicates. */
  function AddThread(s: Store, id: string): (t: Store)
    ensures Advances(s, t)
    ensures |t.threads| == |s.threads| + 1
    ensures t.threads[|s.threads|] == ThreadRecord(id, Connecting)
    ensures t.threads[..|s.threads|] == s.threads && t.chats == s.chats
  {
    Store(s.threads + [ThreadRecord(id, Connecting)], s.chats)
  }

  /** `tryConnect`, as a function from the store before to the result and the store after. */
  function Connect(s: Store, id: string): (o: ConnectOutcome)
    ensures Advances(s, o.after)
    ensures !o.result.Paired? ==> o.after == s
    ensures o.result.Paired? ==> o.result.partner != id && |o.after.chats| == |s.chats| + 1
  {
    match FindThread(s.threads, id)
    case None => ConnectOutcome(ThreadNotFound, s)
    case Some(i) =>
      if s.threads[i].status != Connecting then ConnectOutcome(NotConnecting, s)
      else
        match FindPartner(s.threads, id)
        case None => ConnectOutcome(NoPartner, s)
        case Some(p) => ConnectOutcome(Paired(s.threads[p].id), Pair(s, i, p))
  }

  /**
    The all-or-nothing update of a successful `tryConnect`: the partner's
    record and the requester's record become connected and one chat joining
    them is appended.
   */
  function Pair(s: Store, i: nat, p: nat): (t: Store)
    requires i < |s.threads| && p < |s.threads|
    ensures |t.threads| == |s.threads|
    ensures t.threads[i] == ThreadRecord(s.threads[i].id, Connected)
    ensures t.threads[p] == ThreadRecord(s.threads[p].id, Connected)
    ensures forall j :: 0 <= j < |s.threads| && j != i && j != p ==> t.threads[j] == s.threads[j]
    ensures t.chats == s.chats + [ChatRecord(i, p)]
  {
    var flipped := s.threads[p := s.threads[p].(status := Connected)];
    Store(flipped[i := flipped[i].(status := Connected)], s.chats + [ChatRecord(i, p)])
  }

  /** Both records of a chat exist, carry different ids and are connected. */
  predicate JoinsTwoConnected(threads: seq<ThreadRecord>, c: ChatRecord)
    requires c.thread1 < |threads| && c.thread2 < |threads|
  {
    && threads[c.thread1].id != threads[c.thread2].id
    && threads[c.thread1].status == Connected
    && threads[c.thread2].status == Connected
  }

  /**
    The store's invariant: every chat joins two connected records with
    different ids, no record is in two chats, no record is connected without
    a chat, and nothing is closed.
   */
  ghost predicate Consistent(s: Store) {
    && RefsValid(s.threads, s.chats)
    && (forall k :: 0 <= k < |s.chats| ==> JoinsTwoConnected(s.threads, s.chats[k]))
    && (forall k1, k2, r: nat ::
          0 <= k1 < |s.chats| && 0 <= k2 < |s.chats| && Member(s.chats[k1], r) && Member(s.chats[k2], r)
          ==> k1 == k2)
    && (forall j :: 0 <= j < |s.threads| ==> s.threads[j].status != Closed)
    && (forall j :: 0 <= j < |s.threads| && s.threads[j].status == Connected ==>
          exists k :: 0 <= k < |s.chats| && Member(s.chats[k], j))
  }

  lemma LastWithIdUnique(threads: seq<ThreadRecord>, j1: int, j2: int, id: string)
    requires IsLastWithId(threads, j1, id) && IsLastWithId(threads, j2, id)
    ensures j1 == j2
  {
  }

  /** The three ways `tryConnect` fails, each exactly characterised. */
  lemma ConnectRejects(s: Store, id: string)
    ensures Connect(s, id).result == ThreadNotFound <==>
              forall j :: 0 <= j < |s.threads| ==> s.threads[j].id != id
    ensures Connect(s, id).result == NotConnecting <==>
              exists j :: IsLastWithId(s.threads, j, id) && s.threads[j].status != Connecting
    ensures Connect(s, id).result == NoPartner <==>
              (exists j :: IsLastWithId(s.threads, j, id) && s.threads[j].status == Connecting) &&
              forall j :: 0 <= j < |s.threads| ==> !IsCandidate(s.threads[j], id)
  {
    var f := FindThread(s.threads, id);
    if f.Some? {
      forall j | IsLastWithId(s.threads, j, id) ensures j == f.value {
        LastWithIdUnique(s.threads, j, f.value, id);
      }
    }
  }

  /**
    A successful `tryConnect` flips the requester's last record and the last
    candidate partner to connected and appends exactly one chat joining them.
   */
  lemma ConnectPairs(s: Store, id: string)
    requires Connect(s, id).result.Paired?
    ensures exists i, p ::
              && IsLastWithId(s.threads, i, id) && s.threads[i].status == Connecting
              && IsLastCandidate(s.threads, p, id)
              && Connect(s, id).result.partner == s.threads[p].id
              && Connect(s, id).after.chats == s.chats + [ChatRecord(i, p)]
              && Connect(s, id).after.threads ==
                   s.threads[p := ThreadRecord(s.threads[p].id, Connected)][i := ThreadRecord(id, Connected)]
  {
    var i := FindThread(s.threads, id).value;
    var p := FindPartner(s.threads, id).value;
    assert IsLastWithId(s.threads, i, id) && IsLastCandidate(s.threads, p, id);
  }

  /** `newThread` keeps the invariant. */
  lemma AddThreadKeepsConsistent(s: Store, id: string)
    requires Consistent(s)
    ensures Consistent(AddThread(s, id))
  {
    var t := AddThread(s, id);
    forall j | 0 <= j < |t.threads| && t.threads[j].status == Connected
      ensures exists k :: 0 <= k < |t.chats| && Member(t.chats[k], j)
    {
      assert j < |s.threads| && s.threads[j] == t.threads[j];
    }
  }

  /**
    The records at `i` and `p` may be paired: both exist, both wait, and they
    carry different ids.
   */
  ghost predicate Pairable(s: Store, i: nat, p: nat) {
    && i < |s.threads| && p < |s.threads|
    && s.threads[i].status == Connecting && s.threads[p].status == Connecting
    && s.threads[i].id != s.threads[p].id
  }

  /** No chat of a consistent store touches a waiting record. */
  lemma WaitingIsUnchatted(s: Store, r: nat)
    requires Consistent(s) && r < |s.threads| && s.threads[r].status == Connecting
    ensures forall k :: 0 <= k < |s.chats| ==> !Member(s.chats[k], r)
  {
    forall k | 0 <= k < |s.chats| ensures !Member(s.chats[k], r) {
      assert JoinsTwoConnected(s.threads, s.chats[k]);
    }
  }

  lemma PairKeepsJoins(s: Store, i: nat, p: nat)
    requires Consistent(s) && Pairable(s, i, p)
    ensures RefsValid(Pair(s, i, p).threads, Pair(s, i, p).chats)
    ensures forall k :: 0 <= k < |Pair(s, i, p).chats| ==>
              JoinsTwoConnected(Pair(s, i, p).threads, Pair(s, i, p).chats[k])
  {
    var t := Pair(s, i, p);
    var n := |s.chats|;
    WaitingIsUnchatted(s, i);
    WaitingIsUnchatted(s, p);
    forall k | 0 <= k < |t.chats|
      ensures t.chats[k].thread1 < |t.threads| && t.chats[k].thread2 < |t.threads|
      ensures JoinsTwoConnected(t.threads, t.chats[k])
    {
      if k < n {
        var c := s.chats[k];
        assert t.chats[k] == c;
        assert JoinsTwoConnected(s.threads, c);
        assert !Member(c, i) && !Member(c, p);
        assert t.threads[c.thread1] == s.threads[c.thread1];
        assert t.threads[c.thread2] == s.threads[c.thread2];
      }
    }
  }

  lemma PairKeepsOneChatPerRecord(s: Store, i: nat, p: nat)
    requires Consistent(s) && Pairable(s, i, p)
    ensures forall k1, k2, r: nat ::
              0 <= k1 < |Pair(s, i, p).chats| && 0 <= k2 < |Pair(s, i, p).chats| &&
              Member(Pair(s, i, p).chats[k1], r) && Member(Pair(s, i, p).chats[k2], r)
              ==> k1 == k2
  {
    var t := Pair(s, i, p);
    var n := |s.chats|;
    WaitingIsUnchatted(s, i);
    WaitingIsUnchatted(s, p);
    forall k1, k2, r: nat |
        0 <= k1 < |t.chats| && 0 <= k2 < |t.chats| && Member(t.chats[k1], r) && Member(t.chats[k2], r)
      ensures k1 == k2
    {
      if k1 < n && k2 < n {
        assert Member(s.chats[k1], r) && Member(s.chats[k2], r);
      }
    }
  }

  lemma PairKeepsChatForConnected(s: Store, i: nat, p: nat)
    requires Consistent(s) && Pairable(s, i, p)
    ensures forall j :: 0 <= j < |Pair(s, i, p).threads| && Pair(s, i, p).threads[j].status == Connected ==>
              exists k :: 0 <= k < |Pair(s, i, p).chats| && Member(Pair(s, i, p).chats[k], j)
  {
    var t := Pair(s, i, p);
    var n := |s.chats|;
    forall j | 0 <= j < |t.threads| && t.threads[j].status == Connected
      ensures exists k :: 0 <= k < |t.chats| && Member(t.chats[k], j)
    {
      if j == i || j == p {
        assert Member(t.chats[n], j);
      } else {
        assert s.threads[j].status == Connected;
        var k :| 0 <= k < n && Member(s.chats[k], j);
        assert t.chats[k] == s.chats[k];
      }
    }
  }

  /** Pairing two waiting records of a consistent store keeps it consistent. */
  lemma PairKeepsConsistent(s: Store, i: nat, p: nat)
    requires Consistent(s) && Pairable(s, i, p)
    ensures Consistent(Pair(s, i, p))
  {
    PairKeepsJoins(s, i, p);
    PairKeepsOneChatPerRecord(s, i, p);
    PairKeepsChatForConnected(s, i, p);
  }

  /** `tryConnect` keeps the invariant: pairing is all or nothing. */
  lemma ConnectKeepsConsistent(s: Store, id: string)
    requires Consistent(s)
    ensures Consistent(Connect(s, id).after)
  {
    if Connect(s, id).result.Paired? {
      var i := FindThread(s.threads, id).value;
      var p := FindPartner(s.threads, id).value;
      assert Pairable(s, i, p);
      PairKeepsConsistent(s, i, p);
    }
  }

  /**
    Right after a pairing of `id` with `partner`, routing works from either
    side: each resolves to the other.
   */
  lemma ConnectRoutesBothWays(s: Store, id: string)
    requires RefsValid(s.threads, s.chats)
    requires Connect(s, id).result.Paired?
    ensures RefsValid(Connect(s, id).after.threads, Connect(s, id).after.chats)
    ensures OtherThread(Connect(s, id).after, id) == Some(Connect(s, id).result.partner)
    ensures OtherThread(Connect(s, id).after, Connect(s, id).result.partner) == Some(id)
  {
    var i := FindThread(s.threads, id).value;
    var p := FindPartner(s.threads, id).value;
    var t := Connect(s, id).after;
    var b := Connect(s, id).result.partner;
    var n := |s.chats|;
    assert t.chats == s.chats + [ChatRecord(i, p)];
    assert t.chats[n] == ChatRecord(i, p);
    assert t.threads[i].id == id && t.threads[p].id == b && b != id;
    assert RefsValid(t.threads, t.chats) by {
      forall k | 0 <= k < |t.chats|
        ensures t.chats[k].thread1 < |t.threads| && t.chats[k].thread2 < |t.threads|
      {
        if k < n { assert t.chats[k] == s.chats[k]; }
      }
    }
    assert Involves(t.threads, t.chats[n], id);
    assert FindChat(t.threads, t.chats, id) == Some(n);
    assert Involves(t.threads, t.chats[n], b);
    assert FindChat(t.threads, t.chats, b) == Some(n);
  }

  /**
    The store: `threads` and `chats` grow by appending, and pairing updates
    records in place.
   */
  class ThreadStore {
    var threads: seq<ThreadRecord>
    var chats: seq<ChatRecord>

    function State(): Store
      reads this
    {
      Store(threads, chats)
    }

    ghost predicate Valid()
      reads this
    {
      Consistent(State())
    }

    constructor ()
      ensures Valid() && threads == [] && chats == []
    {
      threads := [];
      chats := [];
    }

    /** `getThread`: scans every record and keeps the last one with the id. */
    method GetThread(id: string) returns (found: Option<nat>)
      ensures found == FindThread(threads, id)
    {
      var ts := threads;
      found := None;
      var i := 0;
      while i < |ts|
        invariant 0 <= i <= |ts|
        invariant found == FindThread(ts[..i], id)
      {
        assert ts[..i + 1][..i] == ts[..i];
        if ts[i].id == id {
          found := Some(i);
        }
        i := i + 1;
      }
      assert ts[..|ts|] == ts;
    }

    /** `getChat`: scans every chat and keeps the last one that has the id on either side. */
    method GetChat(id: string) returns (found: Option<nat>)
      requires RefsValid(threads, chats)
      ensures found == FindChat(threads, chats, id)
    {
      var ts, cs := threads, chats;
      found := None;
      var k := 0;
      while k < |cs|
        invariant 0 <= k <= |cs|
        invariant found == FindChat(ts, cs[..k], id)
      {
        assert cs[..k + 1][..k] == cs[..k];
        var c := cs[k];
        if ts[c.thread1].id == id || ts[c.thread2].id == id {
          found := Some(k);
        }
        k := k + 1;
      }
      assert cs[..|cs|] == cs;
    }

    /** `newThread`: appends a waiting record, whether or not the id is already present. */
    method NewThread(id: string)
      requires Valid()
      modifies this
      ensures Valid()
      ensures threads == old(threads) + [ThreadRecord(id, Connecting)]
      ensures chats == old(chats)
    {
      AddThreadKeepsConsistent(State(), id);
      threads := threads + [ThreadRecord(id, Connecting)];
    }

    /**
      The `threads.forEach` scan inside `tryConnect`: keeps the last waiting
      record whose id differs from the requester's.
     */
    method ScanForPartner(id: string) returns (other: Option<nat>)
      ensures other == FindPartner(threads, id)
    {
      var ts := threads;
      other := None;
      var j := 0;
      while j < |ts|
        invariant 0 <= j <= |ts|
        invariant other == FindPartner(ts[..j], id)
      {
        assert ts[..j + 1][..j] == ts[..j];
        if ts[j].status == Connecting && ts[j].id != id {
          other := Some(j);
        }
        j := j + 1;
      }
      assert ts[..|ts|] == ts;
    }

    /** `tryConnect`: pairs the thread with the last other waiting thread. */
    method TryConnect(id: string) returns (result: ConnectResult)
      requires Valid()
      modifies this
      ensures Valid()
      ensures ConnectOutcome(result, State()) == Connect(old(State()), id)
    {
      ghost var before := State();
      ConnectKeepsConsistent(before, id);
      var found := GetThread(id);
      if found.None? {
        return ThreadNotFound;
      }
      var i := found.value;
      if threads[i].status != Connecting {
        return NotConnecting;
      }

      var other := ScanForPartner(id);
      if other.None? {
        return NoPartner;
      }

      var p := other.value;
      assert Connect(before, id) == ConnectOutcome(Paired(threads[p].id), Pair(before, i, p));
      threads := threads[p := threads[p].(status := Connected)];
      threads := threads[i := threads[i].(status := Connected)];
      chats := chats + [ChatRecord(i, p)];
      result := Paired(threads[p].id);
      assert State() == Pair(before, i, p);
    }

    /** `getOtherThread`: the id on the other side of the thread's chat, if it has one. */
    method GetOtherThread(id: string) returns (other: Option<string>)
      requires Valid()
      ensures other == OtherThread(State(), id)
    {
      var found := GetChat(id);
      if found.None? {
        return None;
      }
      var c := chats[found.value];
      if threads[c.thread1].id == id {
        other := Some(threads[c.thread2].id);
      } else {
        other := Some(threads[c.thread1].id);
      }
    }
  }
}
