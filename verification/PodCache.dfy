/** The list-watch pod cache (`internal/kube/pods.go`) against the API server's history. */
module PodCache {
  import opened Options
  import opened Pods

  type Cache = map<string, Pod>

  // ----- The API server

  datatype Change = Put(pod: Pod) | Remove(uid: string)

  /** Entry `v - 1` is the change that produced resource version `v`; None is a change to something
      outside this node's pods. */
  type History = seq<Option<Change>>

  function UidOf(ch: Change): string {
    match ch
    case Put(pod) => pod.uid
    case Remove(uid) => uid
  }

  ghost predicate ValidHistory(h: History) {
    forall v :: 0 <= v < |h| && h[v].Some? ==> UidOf(h[v].value) != ""
  }

  function ServerApply(m: Cache, ch: Change): Cache {
    match ch
    case Put(pod) => m[pod.uid := pod]
    case Remove(uid) => m - {uid}
  }

  /** The node's pods at resource version `v`. */
  function Snapshot(h: History, v: nat): Cache
    requires v <= |h|
  {
    if v == 0 then map[]
    else if h[v - 1].None? then Snapshot(h, v - 1)
    else ServerApply(Snapshot(h, v - 1), h[v - 1].value)
  }

  /** Every record is held under its own UID. */
  lemma SnapshotKeyed(h: History, v: nat, uid: string)
    requires v <= |h| && uid in Snapshot(h, v)
    ensures Snapshot(h, v)[uid].uid == uid
  {
  }

  // ----- Watch streams

  datatype Event = Changed(version: nat, change: Change) | Bookmark(version: nat)

  /** No selected change among versions `from + 1 .. to`. */
  predicate Quiet(h: History, from: nat, to: nat) {
    to <= |h| && forall v :: from <= v < to ==> h[v].None?
  }

  /** What a server may send on a watch opened at version `from`: every selected change after it, in
      order, and bookmarks that skip none. */
  predicate InOrder(h: History, from: nat, events: seq<Event>)
    decreases |events|
  {
    events == [] ||
    (&& from <= events[0].version <= |h|
     && (match events[0]
         case Changed(v, ch) => from < v && Quiet(h, from, v - 1) && h[v - 1] == Some(ch)
         case Bookmark(v) => Quiet(h, from, v))
     && InOrder(h, events[0].version, events[1..]))
  }

  function EndOf(from: nat, events: seq<Event>): nat {
    if events == [] then from else events[|events| - 1].version
  }

  // ----- What the watcher does with an event

  function CacheApply(m: Cache, ev: Event): Cache {
    match ev
    case Changed(_, Put(pod)) => if pod.uid != "" then m[pod.uid := pod] else m
    case Changed(_, Remove(uid)) => if uid != "" then m - {uid} else m
    case Bookmark(_) => m
  }

  function ApplyAll(m: Cache, events: seq<Event>): Cache
    decreases |events|
  {
    if events == [] then m else ApplyAll(CacheApply(m, events[0]), events[1..])
  }

  /** A change to a pod touches its own entry only, and an object without a UID none; a bookmark touches none. */
  lemma EventTouchesOneEntry(m: Cache, v: nat, pod: Pod, uid: string)
    ensures uid != pod.uid || uid == "" ==> Get(CacheApply(m, Changed(v, Put(pod))), uid) == Get(m, uid)
    ensures pod.uid != "" ==> Get(CacheApply(m, Changed(v, Put(pod))), pod.uid) == Some(pod)
    ensures uid != pod.uid || uid == "" ==> Get(CacheApply(m, Changed(v, Remove(pod.uid))), uid) == Get(m, uid)
    ensures pod.uid != "" ==> Get(CacheApply(m, Changed(v, Remove(pod.uid))), pod.uid) == None
    ensures CacheApply(m, Bookmark(v)) == m
  {
  }

  /** What can go wrong with a stream: the server sends an ERROR event, answers the request with an
      error status, or the transport or decoding fails. */
  datatype StreamError = ErrorEvent | Status(code: nat) | Unreadable

  const GONE := 410

  /** The history the watch needs is no longer there, so only a list can recover. */
  predicate IsExpired(e: StreamError) {
    e.ErrorEvent? || (e.Status? && e.code == GONE)
  }

  datatype Ending = Clean | Failed(error: StreamError)

  /** One turn of the watch loop. `relist` is the version a list answers with, or None if it fails. */
  datatype Turn = Turn(events: seq<Event>, ending: Ending, relist: Option<nat>)

  /** The loop's state. `high` is the highest version applied since the last list. */
  datatype View = View(cache: Cache, rv: Option<nat>, backoff: nat, high: nat)

  predicate Expires(turn: Turn) {
    turn.ending.Failed? && IsExpired(turn.ending.error)
  }

  const MIN_BACKOFF := 1
  const MAX_BACKOFF := 30

  function Doubled(backoff: nat): nat {
    if 2 * backoff > MAX_BACKOFF then MAX_BACKOFF else 2 * backoff
  }

  function Max(a: nat, b: nat): nat {
    if a < b then b else a
  }

  function Listed(h: History, v: nat): View
    requires v <= |h|
  {
    View(Snapshot(h, v), Some(v), MIN_BACKOFF, v)
  }

  function TakeTurn(h: History, w: View, turn: Turn): View
    requires turn.relist.Some? ==> turn.relist.value <= |h|
  {
    var cache := ApplyAll(w.cache, turn.events);
    var at := EndOf(if w.rv.Some? then w.rv.value else 0, turn.events);
    var high := Max(w.high, at);
    if turn.ending.Clean? then
      View(cache, if turn.events == [] then w.rv else Some(at), MIN_BACKOFF, high)
    else
      var rv := if Expires(turn) then None else w.rv;
      if rv.Some? then View(cache, rv, Doubled(w.backoff), high)
      else if turn.relist.Some? then Listed(h, turn.relist.value)
      else View(cache, None, Doubled(w.backoff), high)
  }

  /** The turns, error by error: an ERROR event or status 410 gives the version up, and only a list that
      succeeds brings a new one; every other error keeps the version the watch was opened at. */
  lemma TurnByTurn(h: History, w: View, turn: Turn)
    requires turn.relist.Some? ==> turn.relist.value <= |h|
    ensures var w' := TakeTurn(h, w, turn);
            match turn.ending
            case Clean =>
              && w'.rv == (if turn.events == [] then w.rv else Some(turn.events[|turn.events| - 1].version))
              && w'.cache == ApplyAll(w.cache, turn.events) && w'.backoff == 1
            case Failed(e) =>
              if (e == ErrorEvent || e == Status(410) || w.rv == None) && turn.relist.Some? then
                w' == View(Snapshot(h, turn.relist.value), turn.relist, 1, turn.relist.value)
              else
                && w'.rv == (if e == ErrorEvent || e == Status(410) then None else w.rv)
                && w'.cache == ApplyAll(w.cache, turn.events)
                && w'.backoff == (if w.backoff > 15 then 30 else 2 * w.backoff)
  {
  }

  function Run(h: History, w: View, turns: seq<Turn>): View
    requires forall i :: 0 <= i < |turns| && turns[i].relist.Some? ==> turns[i].relist.value <= |h|
  {
    if turns == [] then w
    else TakeTurn(h, Run(h, w, turns[..|turns| - 1]), turns[|turns| - 1])
  }

  /** A run the cache theorem is about: streams are in order from the version they were opened at,
      and the list that follows an expiry succeeds. */
  ghost predicate GoodTurn(h: History, w: View, turn: Turn) {
    && (w.rv.Some? ==> InOrder(h, w.rv.value, turn.events))
    && (turn.relist.Some? ==> turn.relist.value <= |h|)
    && (Expires(turn) ==> turn.relist.Some?)
  }

  ghost predicate GoodRun(h: History, w: View, turns: seq<Turn>) {
    turns == [] || (
      && GoodRun(h, w, turns[..|turns| - 1])
      && (forall i :: 0 <= i < |turns| && turns[i].relist.Some? ==> turns[i].relist.value <= |h|)
      && GoodTurn(h, Run(h, w, turns[..|turns| - 1]), turns[|turns| - 1]))
  }

  // ----- Agreement with the server

  function Get(m: Cache, uid: string): Option<Pod> {
    if uid in m then Some(m[uid]) else None
  }

  predicate SameAt(h: History, cache: Cache, uid: string, v: int) {
    0 <= v <= |h| && Get(cache, uid) == Get(Snapshot(h, v), uid)
  }

  ghost predicate HeldBetween(h: History, cache: Cache, uid: string, low: nat, high: nat) {
    exists v :: low <= v <= high && SameAt(h, cache, uid, v)
  }

  /** Every UID is cached exactly as the server had it at some version between `pos` and `high`. */
  ghost predicate Agrees(h: History, cache: Cache, pos: nat, high: nat) {
    && pos <= high <= |h|
    && forall uid: string :: HeldBetween(h, cache, uid, pos, high)
  }

  lemma QuietSnapshot(h: History, from: nat, to: nat)
    requires from <= to && Quiet(h, from, to)
    ensures Snapshot(h, from) == Snapshot(h, to)
  {
  }

  lemma EventKeepsUid(h: History, cache: Cache, pos: nat, high: nat, ev: Event, uid: string)
    requires ValidHistory(h) && pos <= high <= |h| && HeldBetween(h, cache, uid, pos, high) && InOrder(h, pos, [ev])
    ensures HeldBetween(h, CacheApply(cache, ev), uid, ev.version, Max(high, ev.version))
  {
    var at, cache' := ev.version, CacheApply(cache, ev);
    var v :| pos <= v <= high && SameAt(h, cache, uid, v);
    if ev.Changed? && uid == UidOf(ev.change) {
      assert SameAt(h, cache', uid, at);
    } else if v >= at {
      assert SameAt(h, cache', uid, v);
    } else {
      QuietSnapshot(h, pos, if ev.Changed? then at - 1 else at);
      QuietSnapshot(h, pos, v);
      assert SameAt(h, cache', uid, at);
    }
  }

  /** Receiving an event, possibly one that was already applied before, keeps the agreement. */
  lemma EventKeepsAgreement(h: History, cache: Cache, pos: nat, high: nat, ev: Event)
    requires ValidHistory(h) && Agrees(h, cache, pos, high) && InOrder(h, pos, [ev])
    ensures Agrees(h, CacheApply(cache, ev), ev.version, Max(high, ev.version))
  {
    var cache' := CacheApply(cache, ev);
    forall uid: string ensures HeldBetween(h, cache', uid, ev.version, Max(high, ev.version)) {
      assert HeldBetween(h, cache, uid, pos, high);
      EventKeepsUid(h, cache, pos, high, ev, uid);
    }
  }

  lemma {:induction false} StreamKeepsAgreement(h: History, cache: Cache, pos: nat, high: nat, events: seq<Event>)
    requires ValidHistory(h) && Agrees(h, cache, pos, high) && InOrder(h, pos, events)
    ensures pos <= EndOf(pos, events) <= |h|
    ensures Agrees(h, ApplyAll(cache, events), EndOf(pos, events), Max(high, EndOf(pos, events)))
    decreases |events|
  {
    if events != [] {
      assert InOrder(h, events[0].version, []);
      assert InOrder(h, pos, [events[0]]);
      EventKeepsAgreement(h, cache, pos, high, events[0]);
      var at := events[0].version;
      StreamKeepsAgreement(h, CacheApply(cache, events[0]), at, Max(high, at), events[1..]);
      assert EndOf(at, events[1..]) == EndOf(pos, events);
    }
  }

  /** Agreement at a single version is equality. */
  lemma AgreesAtPoint(h: History, cache: Cache, v: nat)
    requires Agrees(h, cache, v, v)
    ensures cache == Snapshot(h, v)
  {
    var m := Snapshot(h, v);
    forall uid: string ensures Get(cache, uid) == Get(m, uid) {
      assert HeldBetween(h, cache, uid, v, v);
    }
    SameGets(cache, m);
  }

  lemma SameGets(a: Cache, b: Cache)
    requires forall uid: string :: Get(a, uid) == Get(b, uid)
    ensures a == b
  {
    assert forall uid :: uid in a ==> Get(a, uid) == Some(a[uid]) && uid in b && b[uid] == a[uid];
    assert forall uid :: uid in b ==> Get(b, uid) == Some(b[uid]) && uid in a;
  }

  ghost predicate ViewOk(h: History, w: View) {
    w.rv.Some? && Agrees(h, w.cache, w.rv.value, w.high) && MIN_BACKOFF <= w.backoff <= MAX_BACKOFF
  }

  lemma ListedOk(h: History, v: nat)
    requires v <= |h|
    ensures ViewOk(h, Listed(h, v))
  {
    forall uid: string ensures HeldBetween(h, Snapshot(h, v), uid, v, v) {
      assert SameAt(h, Snapshot(h, v), uid, v);
    }
  }

  lemma WidenDown(h: History, cache: Cache, pos: nat, low: nat, high: nat)
    requires Agrees(h, cache, pos, high) && low <= pos
    ensures Agrees(h, cache, low, high)
  {
    forall uid: string ensures HeldBetween(h, cache, uid, low, high) {
      assert HeldBetween(h, cache, uid, pos, high);
    }
  }

  lemma TurnKeeps(h: History, w: View, turn: Turn)
    requires ValidHistory(h) && ViewOk(h, w) && GoodTurn(h, w, turn)
    ensures ViewOk(h, TakeTurn(h, w, turn))
  {
    var rv := w.rv.value;
    StreamKeepsAgreement(h, w.cache, rv, w.high, turn.events);
    var at := EndOf(rv, turn.events);
    if Expires(turn) {
      ListedOk(h, turn.relist.value);
    } else if turn.ending.Failed? {
      WidenDown(h, ApplyAll(w.cache, turn.events), at, rv, Max(w.high, at));
    }
  }

  lemma {:induction false} RunKeeps(h: History, start: nat, turns: seq<Turn>)
    requires ValidHistory(h) && start <= |h| && GoodRun(h, Listed(h, start), turns)
    ensures forall i :: 0 <= i < |turns| && turns[i].relist.Some? ==> turns[i].relist.value <= |h|
    ensures ViewOk(h, Run(h, Listed(h, start), turns))
  {
    if turns == [] {
      ListedOk(h, start);
    } else {
      RunKeeps(h, start, turns[..|turns| - 1]);
      TurnKeeps(h, Run(h, Listed(h, start), turns[..|turns| - 1]), turns[|turns| - 1]);
    }
  }

  /** After any good run from an initial list, and any part of a further stream, every UID is cached
      as the server had it at some version between the stream's position and the highest version
      ever applied; and once the position reaches that version, even by replaying events onto a
      newer cache, the whole cache is the server's pod set there. */
  lemma {:induction false} CacheAgreesWithServer(h: History, start: nat, turns: seq<Turn>, events: seq<Event>)
    requires ValidHistory(h) && start <= |h| && GoodRun(h, Listed(h, start), turns)
    requires GoodTurn(h, Run(h, Listed(h, start), turns), Turn(events, Clean, None))
    ensures Run(h, Listed(h, start), turns).rv.Some?
    ensures var w := Run(h, Listed(h, start), turns);
            var pos := EndOf(w.rv.value, events);
            var high := Max(w.high, pos);
            && Agrees(h, ApplyAll(w.cache, events), pos, high)
            && (pos == high ==> ApplyAll(w.cache, events) == Snapshot(h, pos))
  {
    RunKeeps(h, start, turns);
    var w := Run(h, Listed(h, start), turns);
    StreamKeepsAgreement(h, w.cache, w.rv.value, w.high, events);
    var pos := EndOf(w.rv.value, events);
    if pos == Max(w.high, pos) { AgreesAtPoint(h, ApplyAll(w.cache, events), pos); }
  }

  // ----- Convergence by replay

  /** Everything the server sends on a watch from `from` until it bookmarks `to`. */
  function Replay(h: History, from: nat, to: nat): seq<Event>
    requires from <= to <= |h|
    decreases |h| - from
  {
    if from == to then [Bookmark(to)]
    else (if h[from].Some? then [Changed(from + 1, h[from].value)] else []) + Replay(h, from + 1, to)
  }

  lemma {:induction false} ReplayInOrder(h: History, from: nat, to: nat)
    requires from <= to <= |h|
    ensures InOrder(h, from, Replay(h, from, to)) && EndOf(from, Replay(h, from, to)) == to
    decreases |h| - from
  {
    var events := Replay(h, from, to);
    if from == to {
      assert events[1..] == [];
    } else {
      ReplayInOrder(h, from + 1, to);
      var rest := Replay(h, from + 1, to);
      if h[from].Some? {
        assert events[1..] == rest;
      } else {
        assert events == rest;
      }
    }
  }

  /** Wherever the error branch left the resume version, a watch that runs to any version not below
      the highest one ever applied ends with exactly the server's pod set there. */
  lemma {:induction false} ReplayConverges(h: History, start: nat, turns: seq<Turn>, to: nat)
    requires ValidHistory(h) && start <= |h| && GoodRun(h, Listed(h, start), turns)
    requires GoodRunHigh(h, start, turns) <= to <= |h|
    ensures var w := Run(h, Listed(h, start), turns);
            w.rv.Some? && w.rv.value <= to && ApplyAll(w.cache, Replay(h, w.rv.value, to)) == Snapshot(h, to)
  {
    RunKeeps(h, start, turns);
    var w := Run(h, Listed(h, start), turns);
    ReplayInOrder(h, w.rv.value, to);
    CacheAgreesWithServer(h, start, turns, Replay(h, w.rv.value, to));
  }

  ghost function GoodRunHigh(h: History, start: nat, turns: seq<Turn>): nat
    requires ValidHistory(h) && start <= |h| && GoodRun(h, Listed(h, start), turns)
  {
    RunKeeps(h, start, turns);
    Run(h, Listed(h, start), turns).high
  }

  // ----- The other branch: a failed re-list, then a watch with an empty version

  predicate AnnouncesOneOf(ev: Event, m: Cache) {
    ev.Changed? && ev.change.Put? && ev.change.pod.uid in m && m[ev.change.pod.uid] == ev.change.pod
  }

  predicate IsFor(ev: Event, uid: string) {
    ev.Changed? && UidOf(ev.change) == uid
  }

  predicate Mentions(events: seq<Event>, uid: string) {
    exists i :: 0 <= i < |events| && IsFor(events[i], uid)
  }

  lemma MentionsStep(events: seq<Event>, uid: string)
    requires events != []
    ensures Mentions(events, uid) == (IsFor(events[0], uid) || Mentions(events[1..], uid))
  {
    if Mentions(events[1..], uid) {
      var i :| 0 <= i < |events[1..]| && IsFor(events[1..][i], uid);
      assert IsFor(events[i + 1], uid);
    }
    if Mentions(events, uid) && !IsFor(events[0], uid) {
      var i :| 0 <= i < |events| && IsFor(events[i], uid);
      assert IsFor(events[1..][i - 1], uid);
    }
  }

  /** `events` announce each pod of `m`, which is how a watch with no version begins. */
  ghost predicate Announces(events: seq<Event>, m: Cache) {
    && "" !in m
    && (forall i :: 0 <= i < |events| ==> AnnouncesOneOf(events[i], m))
    && (forall uid :: uid in m ==> Mentions(events, uid))
  }

  lemma {:induction false} AnnouncedOverlays(cache: Cache, events: seq<Event>, m: Cache, uid: string)
    requires "" !in m && forall i :: 0 <= i < |events| ==> AnnouncesOneOf(events[i], m)
    ensures Get(ApplyAll(cache, events), uid) == if Mentions(events, uid) then Get(m, uid) else Get(cache, uid)
    decreases |events|
  {
    if events != [] {
      assert AnnouncesOneOf(events[0], m);
      AnnouncedOverlays(CacheApply(cache, events[0]), events[1..], m, uid);
      MentionsStep(events, uid);
    }
  }

  lemma OverlayAt(cache: Cache, events: seq<Event>, m: Cache, uid: string)
    requires Announces(events, m)
    ensures Get(ApplyAll(cache, events), uid) == if uid in m then Get(m, uid) else Get(cache, uid)
  {
    AnnouncedOverlays(cache, events, m, uid);
    if Mentions(events, uid) {
      var i :| 0 <= i < |events| && IsFor(events[i], uid);
      assert AnnouncesOneOf(events[i], m);
    }
  }

  lemma {:induction false} OverlayExact(h: History, v: nat, cache: Cache, events: seq<Event>)
    requires v <= |h| && Announces(events, Snapshot(h, v))
    ensures ApplyAll(cache, events) == Snapshot(h, v) <==> cache.Keys <= Snapshot(h, v).Keys
  {
    var m, after := Snapshot(h, v), ApplyAll(cache, events);
    if cache.Keys <= m.Keys {
      forall uid: string ensures Get(after, uid) == Get(m, uid) {
        OverlayAt(cache, events, m, uid);
        assert uid in cache ==> uid in cache.Keys;
      }
      SameGets(after, m);
    } else {
      var uid :| uid in cache.Keys && uid !in m.Keys;
      OverlayAt(cache, events, m, uid);
    }
  }

  /** A lost watch whose re-list failed leaves no version to resume from. The pods the next watch announces
      overlay whatever was cached, so once they are all announced the cache equals the server's pod
      set exactly when every pod cached before is still there. */
  lemma FailedRelistExact(h: History, w: View, lost: Turn, v: nat, announced: seq<Event>)
    requires v <= |h| && Expires(lost) && lost.relist.None? && Announces(announced, Snapshot(h, v))
    ensures var w1 := TakeTurn(h, w, lost);
            var w2 := TakeTurn(h, w1, Turn(announced, Clean, None));
            w1.rv == None && (w2.cache == Snapshot(h, v) <==> w1.cache.Keys <= Snapshot(h, v).Keys)
  {
    OverlayExact(h, v, TakeTurn(h, w, lost).cache, announced);
  }

  // What becomes of it later. The announced objects carry their own versions, so the watch resumes from
  // one that may be older than the state announced.

  /** No change to `uid` among versions `from + 1 .. to`. */
  predicate Untouched(h: History, uid: string, from: nat, to: nat) {
    to <= |h| && forall v :: from <= v < to && h[v].Some? ==> UidOf(h[v].value) != uid
  }

  lemma {:induction false} UntouchedSame(h: History, uid: string, from: nat, to: nat)
    requires from <= to && Untouched(h, uid, from, to)
    ensures Get(Snapshot(h, from), uid) == Get(Snapshot(h, to), uid)
  {
    if from < to { UntouchedSame(h, uid, from, to - 1); }
  }

  /** A stream that does not mention a UID leaves its entry alone and passes over no change to it. */
  lemma {:induction false} UnmentionedStays(h: History, cache: Cache, pos: nat, events: seq<Event>, uid: string)
    requires pos <= |h| && InOrder(h, pos, events) && !Mentions(events, uid)
    ensures Get(ApplyAll(cache, events), uid) == Get(cache, uid)
    ensures pos <= EndOf(pos, events) && Untouched(h, uid, pos, EndOf(pos, events))
    decreases |events|
  {
    if events != [] {
      MentionsStep(events, uid);
      UnmentionedStays(h, CacheApply(cache, events[0]), events[0].version, events[1..], uid);
      assert EndOf(events[0].version, events[1..]) == EndOf(pos, events);
      assert !IsFor(events[0], uid);
    }
  }

  /** One UID's agreement is kept by a stream, and a stream that mentions the UID establishes it. */
  lemma {:induction false} StreamKeepsUid(
    h: History, cache: Cache, pos: nat, high: nat, events: seq<Event>, uid: string)
    requires ValidHistory(h) && pos <= high <= |h| && InOrder(h, pos, events)
    requires HeldBetween(h, cache, uid, pos, high) || Mentions(events, uid)
    ensures pos <= EndOf(pos, events) <= |h|
    ensures HeldBetween(h, ApplyAll(cache, events), uid, EndOf(pos, events), Max(high, EndOf(pos, events)))
    decreases |events|
  {
    if events != [] {
      var ev, cache' := events[0], CacheApply(cache, events[0]);
      assert InOrder(h, ev.version, []);
      assert InOrder(h, pos, [ev]);
      MentionsStep(events, uid);
      if HeldBetween(h, cache, uid, pos, high) {
        EventKeepsUid(h, cache, pos, high, ev, uid);
      } else if IsFor(ev, uid) {
        assert SameAt(h, cache', uid, ev.version);
      }
      StreamKeepsUid(h, cache', ev.version, Max(high, ev.version), events[1..], uid);
      assert EndOf(ev.version, events[1..]) == EndOf(pos, events);
    }
  }

  /** A UID is stale: cached from before, absent from the announced state, and not mentioned since. */
  predicate Stale(cache: Cache, m: Cache, stream: seq<Event>, uid: string) {
    uid in cache && uid !in m && !Mentions(stream, uid)
  }

  lemma StreamRepairsAllButStale(
    h: History, cache: Cache, v: nat, announced: seq<Event>, at: nat, stream: seq<Event>, uid: string)
    requires ValidHistory(h) && at <= v <= |h| && Announces(announced, Snapshot(h, v)) && InOrder(h, at, stream)
    ensures var pos := EndOf(at, stream);
            && pos <= |h|
            && (v <= pos ==> (Get(ApplyAll(ApplyAll(cache, announced), stream), uid) == Get(Snapshot(h, pos), uid)
                              <==> !Stale(cache, Snapshot(h, v), stream, uid)))
  {
    var m, overlaid, pos := Snapshot(h, v), ApplyAll(cache, announced), EndOf(at, stream);
    OverlayAt(cache, announced, m, uid);
    if Stale(cache, m, stream, uid) {
      UnmentionedStays(h, overlaid, at, stream, uid);
      if v <= pos { UntouchedSame(h, uid, v, pos); }
    } else {
      assert uid in m || uid !in cache ==> SameAt(h, overlaid, uid, v);
      StreamKeepsUid(h, overlaid, at, v, stream, uid);
    }
  }

  lemma {:induction false} ApplyConcat(cache: Cache, a: seq<Event>, b: seq<Event>)
    ensures ApplyAll(cache, a + b) == ApplyAll(ApplyAll(cache, a), b)
    decreases |a|
  {
    if a == [] {
      assert a + b == b;
    } else {
      assert (a + b)[1..] == a[1..] + b;
      ApplyConcat(CacheApply(cache, a[0]), a[1..], b);
    }
  }

  lemma {:induction false} InOrderConcat(h: History, from: nat, a: seq<Event>, b: seq<Event>)
    requires InOrder(h, from, a) && InOrder(h, EndOf(from, a), b)
    ensures InOrder(h, from, a + b) && EndOf(from, a + b) == EndOf(EndOf(from, a), b)
    decreases |a|
  {
    if a == [] {
      assert a + b == b;
    } else {
      assert (a + b)[1..] == a[1..] + b;
      assert EndOf(a[0].version, a[1..]) == EndOf(from, a);
      InOrderConcat(h, a[0].version, a[1..], b);
    }
  }

  /** Where the loop resumes after a watch that announced and then went on with `live`: from the last
      change, or if there was none from the last announced object's own version. */
  function ResumeAfter(announced: seq<Event>, v: nat, live: seq<Event>): nat {
    if live == [] then EndOf(0, announced) else EndOf(v, live)
  }

  lemma ResumedStream(h: History, v: nat, announced: seq<Event>, live: seq<Event>, stream: seq<Event>)
    returns (at: nat)
    requires v <= |h| && EndOf(0, announced) <= v
    requires InOrder(h, v, live) && InOrder(h, ResumeAfter(announced, v, live), stream)
    ensures at <= v && InOrder(h, at, live + stream)
    ensures EndOf(at, live + stream) == EndOf(ResumeAfter(announced, v, live), stream)
  {
    if live == [] {
      at := EndOf(0, announced);
      assert live + stream == stream;
    } else {
      at := v;
      InOrderConcat(h, v, live, stream);
    }
  }

  /** The three turns: the lost watch, the announcing one, and one more. */
  lemma AnnouncingTurns(h: History, w: View, lost: Turn, v: nat, announced: seq<Event>, live: seq<Event>,
                        stream: seq<Event>)
    requires Expires(lost) && lost.relist.None? && announced != []
    ensures var w1 := TakeTurn(h, w, lost);
            var w2 := TakeTurn(h, w1, Turn(announced + live, Clean, None));
            var w3 := TakeTurn(h, w2, Turn(stream, Clean, None));
            && w1.rv == None && w2.rv == Some(ResumeAfter(announced, v, live))
            && w3.rv == Some(EndOf(ResumeAfter(announced, v, live), stream))
            && w3.cache == ApplyAll(ApplyAll(w1.cache, announced), live + stream)
  {
    var cache := TakeTurn(h, w, lost).cache;
    ApplyConcat(cache, announced, live);
    ApplyConcat(ApplyAll(cache, announced), live, stream);
    assert live == [] ==> announced + live == announced;
  }

  /** After a lost watch whose re-list failed, the next watch announces the pods as of `v`, goes on with any
      changes after `v`, and ends; a further stream runs from where the loop then resumes. Once `v` is
      passed, a UID is cached as the server has it exactly when it is not stale: replayed changes do
      no harm, and only a later change to the UID itself repairs a stale one. */
  lemma {:induction false} StaleUntilMentioned(h: History, w: View, lost: Turn, v: nat, announced: seq<Event>,
                                               live: seq<Event>, stream: seq<Event>, uid: string)
    requires ValidHistory(h) && v <= |h| && Expires(lost) && lost.relist.None?
    requires announced != [] && Announces(announced, Snapshot(h, v)) && EndOf(0, announced) <= v
    requires InOrder(h, v, live) && InOrder(h, ResumeAfter(announced, v, live), stream)
    ensures var w1 := TakeTurn(h, w, lost);
            var w2 := TakeTurn(h, w1, Turn(announced + live, Clean, None));
            var w3 := TakeTurn(h, w2, Turn(stream, Clean, None));
            var pos := EndOf(ResumeAfter(announced, v, live), stream);
            && w1.rv == None && w2.rv == Some(ResumeAfter(announced, v, live)) && w3.rv == Some(pos) && pos <= |h|
            && (v <= pos ==> (Get(w3.cache, uid) == Get(Snapshot(h, pos), uid) <==>
                              !Stale(w1.cache, Snapshot(h, v), live + stream, uid)))
  {
    var cache := TakeTurn(h, w, lost).cache;
    var at := ResumedStream(h, v, announced, live, stream);
    StreamRepairsAllButStale(h, cache, v, announced, at, live + stream, uid);
    AnnouncingTurns(h, w, lost, v, announced, live, stream);
  }

  /** A run that shows it: the pod is deleted while the watch is down, the re-list fails once, and the
      deleted pod stays cached although nothing else goes wrong. */
  lemma FailedRelistKeepsDeletedPod(pod: Pod)
    requires pod.uid != ""
    ensures var h: History := [Some(Put(pod)), Some(Remove(pod.uid))];
            var w := Run(h, Listed(h, 1), [Turn([], Failed(Status(GONE)), None), Turn([], Clean, None)]);
            ValidHistory(h) && Snapshot(h, 2) == map[] && w.cache == map[pod.uid := pod]
  {
    var h: History := [Some(Put(pod)), Some(Remove(pod.uid))];
    var t1, t2 := Turn([], Failed(Status(GONE)), None), Turn([], Clean, None);
    assert Snapshot(h, 0) == map[] && Snapshot(h, 1) == map[pod.uid := pod];
    assert [t1, t2][..1] == [t1] && [t1][..0] == [];
    assert Run(h, Listed(h, 1), [t1]) == TakeTurn(h, Listed(h, 1), t1);
  }

  // ----- The watcher

  /** `items` list the pods of `m`, in any order; items without a UID do not count. */
  ghost predicate IsListOf(items: seq<Pod>, m: Cache) {
    && (forall i :: 0 <= i < |items| && items[i].uid != "" ==> items[i].uid in m && m[items[i].uid] == items[i])
    && (forall uid :: uid in m ==> uid != "" && exists i :: 0 <= i < |items| && items[i].uid == uid)
  }

  class Watcher {
    var byUID: Cache
    var synced: bool

    constructor ()
      ensures byUID == map[] && !synced
    {
      byUID, synced := map[], false;
    }

    method List(items: seq<Pod>, ghost m: Cache)
      requires IsListOf(items, m)
      modifies this`byUID
      ensures byUID == m
    {
      var built: Cache := map[];
      for i := 0 to |items|
        invariant forall j :: 0 <= j < i && items[j].uid != "" ==> items[j].uid in built
        invariant forall uid :: uid in built ==> uid in m && built[uid] == m[uid]
      {
        if items[i].uid == "" { continue; }
        built := built[items[i].uid := items[i]];
      }
      assert built.Keys == m.Keys;
      byUID := built;
    }

    /** The initial list. Lookups are trusted only once it has succeeded. */
    method Start(listed: Option<(nat, seq<Pod>)>, ghost m: Cache) returns (rv: Option<nat>)
      requires listed.Some? ==> IsListOf(listed.value.1, m)
      modifies this
      ensures listed.Some? ==> byUID == m && synced && rv == Some(listed.value.0)
      ensures listed.None? ==> byUID == old(byUID) && synced == old(synced) && rv == None
    {
      if listed.None? { return None; }
      List(listed.value.1, m);
      synced := true;
      return Some(listed.value.0);
    }

    method PutPod(p: Pod)
      modifies this`byUID
      ensures byUID == old(byUID)[p.uid := p]
    {
      byUID := byUID[p.uid := p];
    }

    method DeletePod(uid: string)
      modifies this`byUID
      ensures byUID == if uid == "" then old(byUID) else old(byUID) - {uid}
    {
      if uid == "" { return; }
      byUID := byUID - {uid};
    }

    /** One stream: applies its events in order and returns the last version seen. */
    method WatchOnce(rv: Option<nat>, events: seq<Event>) returns (next: Option<nat>)
      modifies this`byUID
      ensures byUID == ApplyAll(old(byUID), events)
      ensures next == if events == [] then rv else Some(EndOf(0, events))
    {
      next := rv;
      for i := 0 to |events|
        invariant ApplyAll(byUID, events[i..]) == ApplyAll(old(byUID), events)
        invariant next == if i == 0 then rv else Some(events[i - 1].version)
      {
        assert events[i..][0] == events[i] && events[i..][1..] == events[i + 1..];
        next := Some(events[i].version);
        match events[i] {
          case Changed(_, Put(pod)) =>
            if pod.uid != "" { PutPod(pod); }
          case Changed(_, Remove(uid)) => DeletePod(uid);
          case Bookmark(_) =>
        }
      }
      assert events[|events|..] == [];
    }

    /** The watch loop, for as many turns as it runs before it is cancelled. `lists[i]` is what the
        server answers to a list in turn `i`. */
    method WatchLoop(ghost h: History, start: View, turns: seq<Turn>, lists: seq<seq<Pod>>) returns (w: View)
      requires byUID == start.cache && |lists| == |turns|
      requires forall i :: 0 <= i < |turns| && turns[i].relist.Some? ==> turns[i].relist.value <= |h|
      requires forall i :: 0 <= i < |turns| && turns[i].relist.Some? ==>
                             IsListOf(lists[i], Snapshot(h, turns[i].relist.value))
      modifies this`byUID
      ensures w == Run(h, start, turns) && byUID == w.cache
    {
      var rv: Option<nat>, backoff: nat, high: nat := start.rv, start.backoff, start.high;
      for i := 0 to |turns|
        invariant View(byUID, rv, backoff, high) == Run(h, start, turns[..i])
      {
        assert turns[..i + 1][..i] == turns[..i];
        var turn := turns[i];
        var next := WatchOnce(rv, turn.events);
        high := Max(high, EndOf(if rv.Some? then rv.value else 0, turn.events));
        if turn.ending.Clean? {
          rv, backoff := next, MIN_BACKOFF;
          continue;
        }
        if Expires(turn) { rv := None; }
        backoff := if 2 * backoff > MAX_BACKOFF then MAX_BACKOFF else 2 * backoff;
        if rv.None? && turn.relist.Some? {
          List(lists[i], Snapshot(h, turn.relist.value));
          rv, backoff, high := turn.relist, MIN_BACKOFF, turn.relist.value;
        }
      }
      assert turns[..|turns|] == turns;
      w := View(byUID, rv, backoff, high);
    }
  }
}
