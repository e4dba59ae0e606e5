/** The hash chain of internal/evidence/chain.go. SHA-256 and the JSON encoder are
    parameters; what is assumed of them is `Sane`. */
module Evidence {
  import opened Text
  import Redaction

  datatype Event = Event(sessionID: string, sequence: nat, timestamp: int, virtualTimestamp: int,
                         kind: string, actor: string, command: string, exitCode: int,
                         mutations: seq<string>, previousHash: string, hash: string)

  /** The fields that are hashed. */
  datatype Body = Body(sessionID: string, sequence: nat, timestamp: int, virtualTimestamp: int,
                       kind: string, actor: string, command: string, exitCode: int,
                       mutations: seq<string>, previousHash: string)

  function BodyOf(e: Event): Body {
    Body(e.sessionID, e.sequence, e.timestamp, e.virtualTimestamp, e.kind, e.actor, e.command,
         e.exitCode, e.mutations, e.previousHash)
  }

  /** What json.Marshal starts a struct with, and no hex digit is. */
  const BRACE := '\U{7b}'

  datatype Hashing = Hashing(json: Body -> string, sha: string -> string) {
    /** json.Marshal of a struct is injective and starts with a brace; hex digits have none. */
    ghost predicate Sane() {
      && (forall a, b :: json(a) == json(b) ==> a == b)
      && (forall a :: json(a) != "" && json(a)[0] == BRACE)
      && (forall s :: BRACE !in sha(s))
    }

    /** The hash of an event on top of a predecessor's hash. */
    function Hash(previous: string, body: Body): string { sha(previous + json(body)) }
  }

  // ---- the chain as a value ----

  datatype Log = Log(events: seq<Event>, previous: string)

  const EMPTY := Log([], "")

  function Appended(H: Hashing, log: Log, e: Event): Log {
    var numbered := e.(sequence := |log.events| + 1, previousHash := log.previous);
    var sealed := numbered.(hash := H.Hash(log.previous, BodyOf(numbered)));
    Log(log.events + [sealed], sealed.hash)
  }

  function HeadOf(events: seq<Event>): string {
    if events == [] then "" else events[|events| - 1].hash
  }

  /** Event `i` is numbered, linked and sealed. */
  predicate Linked(H: Hashing, events: seq<Event>, i: nat)
    requires i < |events|
  {
    && events[i].sequence == i + 1
    && events[i].previousHash == HeadOf(events[..i])
    && events[i].hash == H.Hash(HeadOf(events[..i]), BodyOf(events[i]))
  }

  predicate Verified(H: Hashing, events: seq<Event>) {
    forall i: nat | i < |events| :: Linked(H, events, i)
  }

  predicate Wellformed(H: Hashing, log: Log) {
    Verified(H, log.events) && log.previous == HeadOf(log.events)
  }

  class Chain {
    const H: Hashing
    var events: seq<Event>
    var previous: string

    function View(): Log reads this { Log(events, previous) }

    constructor (H: Hashing)
      ensures View() == EMPTY && this.H == H
    {
      this.H := H;
      events, previous := [], "";
    }

    method Append(event: Event) returns (r: Event)
      modifies this
      ensures View() == Appended(H, old(View()), event)
      ensures r == events[|events| - 1]
    {
      r := event.(sequence := |events| + 1, previousHash := previous);
      r := r.(hash := H.Hash(r.previousHash, BodyOf(r)));
      events := events + [r];
      previous := r.hash;
    }

    method Verify() returns (ok: bool)
      ensures ok <==> Verified(H, events)
    {
      var head := "";
      for i := 0 to |events|
        invariant head == HeadOf(events[..i])
        invariant forall k: nat | k < i :: Linked(H, events, k)
      {
        var e := events[i];
        assert events[..i + 1][|events[..i + 1]| - 1] == e;
        if e.sequence != i + 1 || e.previousHash != head || H.Hash(head, BodyOf(e)) != e.hash {
          assert !Linked(H, events, i);
          return false;
        }
        head := e.hash;
      }
      return true;
    }

    method Restore(saved: seq<Event>) returns (ok: bool)
      modifies this
      ensures events == saved && previous == HeadOf(saved)
      ensures ok <==> Verified(H, saved)
    {
      events, previous := saved, "";
      for i := 0 to |saved|
        invariant events == saved && previous == HeadOf(saved[..i])
      {
        assert saved[..i + 1][|saved[..i + 1]| - 1] == saved[i];
        previous := saved[i].hash;
      }
      assert saved[..|saved|] == saved;
      ok := Verify();
    }
  }

  // ---- appending ----

  lemma AppendVerified(H: Hashing, log: Log, e: Event)
    requires Wellformed(H, log)
    ensures Wellformed(H, Appended(H, log, e))
  {
    var after := Appended(H, log, e);
    var n := |log.events|;
    forall i: nat | i < |after.events| ensures Linked(H, after.events, i) {
      assert after.events[..i] == log.events[..i];
      if i < n { assert Linked(H, log.events, i); } else { assert log.events[..n] == log.events; }
    }
  }

  function AppendAll(H: Hashing, log: Log, es: seq<Event>): Log
    decreases |es|
  {
    if es == [] then log else AppendAll(H, Appended(H, log, es[0]), es[1..])
  }

  /** Every run of appends from an empty or a restored chain verifies, and keeps
      what was there. */
  lemma {:induction false} AppendAllVerified(H: Hashing, log: Log, es: seq<Event>)
    requires Wellformed(H, log)
    ensures Wellformed(H, AppendAll(H, log, es))
    ensures log.events <= AppendAll(H, log, es).events
    ensures |AppendAll(H, log, es).events| == |log.events| + |es|
    decreases |es|
  {
    if es != [] {
      AppendVerified(H, log, es[0]);
      AppendAllVerified(H, Appended(H, log, es[0]), es[1..]);
    }
  }

  // ---- the head determines the chain ----

  /** The bytes hashed for event `i`. */
  function Input(H: Hashing, events: seq<Event>, i: nat): string
    requires i < |events|
  {
    HeadOf(events[..i]) + H.json(BodyOf(events[i]))
  }

  /** Two events whose hashed bytes differ and whose hashes do not. */
  ghost predicate Collision(H: Hashing, a: seq<Event>, b: seq<Event>) {
    exists i: nat, j: nat | i < |a| && j < |b| :: Collide(H, a, i, b, j)
  }

  ghost predicate Collide(H: Hashing, a: seq<Event>, i: nat, b: seq<Event>, j: nat)
    requires i < |a| && j < |b|
  {
    Input(H, a, i) != Input(H, b, j) && H.sha(Input(H, a, i)) == H.sha(Input(H, b, j))
  }

  lemma FirstBrace(p: string, rest: string)
    requires BRACE !in p && rest != "" && rest[0] == BRACE
    ensures (p + rest)[|p|] == BRACE && forall k | 0 <= k < |p| :: (p + rest)[k] != BRACE
  {
    forall k | 0 <= k < |p| ensures (p + rest)[k] != BRACE { assert p[k] in p; }
  }

  /** The hashed bytes can be cut apart at the first brace. */
  lemma InputUnique(H: Hashing, p: string, a: Body, q: string, b: Body)
    requires H.Sane() && BRACE !in p && BRACE !in q
    requires p + H.json(a) == q + H.json(b)
    ensures p == q && a == b
  {
    var x, y := p + H.json(a), q + H.json(b);
    FirstBrace(p, H.json(a));
    FirstBrace(q, H.json(b));
    assert |p| == |q|;
    assert p == x[..|p|] == y[..|q|] == q;
    assert H.json(a) == x[|p|..] == y[|q|..] == H.json(b);
  }

  lemma HeadShape(H: Hashing, a: seq<Event>, i: nat)
    requires H.Sane() && Verified(H, a) && i < |a|
    ensures BRACE !in HeadOf(a[..i])
  {
    if i > 0 {
      assert Linked(H, a, i - 1);
      assert a[..i][i - 1] == a[i - 1];
    }
  }

  lemma PrefixVerified(H: Hashing, a: seq<Event>, n: nat)
    requires Verified(H, a) && n <= |a|
    ensures Verified(H, a[..n])
    ensures forall i: nat | i < n :: Input(H, a[..n], i) == Input(H, a, i)
  {
    forall i: nat | i < n ensures Linked(H, a[..n], i) && a[..n][..i] == a[..i] {
      assert Linked(H, a, i) && a[..n][..i] == a[..i];
    }
  }

  /** Equal hashed bytes at two places: the same event, at the same place. */
  lemma SameInput(H: Hashing, a: seq<Event>, i: nat, b: seq<Event>, j: nat)
    requires H.Sane() && Verified(H, a) && Verified(H, b) && i < |a| && j < |b|
    requires Input(H, a, i) == Input(H, b, j)
    ensures i == j && a[i] == b[j] && HeadOf(a[..i]) == HeadOf(b[..j])
  {
    assert Linked(H, a, i) && Linked(H, b, j);
    HeadShape(H, a, i);
    HeadShape(H, b, j);
    InputUnique(H, HeadOf(a[..i]), BodyOf(a[i]), HeadOf(b[..j]), BodyOf(b[j]));
  }

  lemma CollisionLifts(H: Hashing, a: seq<Event>, n: nat, b: seq<Event>, m: nat)
    requires Verified(H, a) && Verified(H, b) && n <= |a| && m <= |b|
    requires Collision(H, a[..n], b[..m])
    ensures Collision(H, a, b)
  {
    PrefixVerified(H, a, n);
    PrefixVerified(H, b, m);
    var k: nat, l: nat :| k < n && l < m && Collide(H, a[..n], k, b[..m], l);
    assert Collide(H, a, k, b, l);
  }

  /** Two verified chains with the same head are the same, event for event,
      unless they contain a hash collision. */
  lemma {:induction false} HeadDetermines(H: Hashing, a: seq<Event>, b: seq<Event>)
    requires H.Sane() && Verified(H, a) && Verified(H, b) && a != [] && b != []
    requires HeadOf(a) == HeadOf(b)
    ensures a == b || Collision(H, a, b)
    decreases |a|
  {
    var i, j := |a| - 1, |b| - 1;
    assert Linked(H, a, i) && Linked(H, b, j);
    if Input(H, a, i) != Input(H, b, j) {
      assert Collide(H, a, i, b, j);
    } else {
      SameInput(H, a, i, b, j);
      assert a == a[..i] + [a[i]] && b == b[..j] + [b[j]];
      if i > 0 {
        PrefixVerified(H, a, i);
        PrefixVerified(H, b, j);
        HeadDetermines(H, a[..i], b[..j]);
        if a[..i] != b[..j] { CollisionLifts(H, a, i, b, j); }
      }
    }
  }

  /** With an injective hash the head determines the whole chain. */
  lemma InjectiveHead(H: Hashing, a: seq<Event>, b: seq<Event>)
    requires H.Sane() && forall s, t :: H.sha(s) == H.sha(t) ==> s == t
    requires Verified(H, a) && Verified(H, b) && a != [] && b != []
    ensures HeadOf(a) == HeadOf(b) <==> a == b
  {
    if HeadOf(a) == HeadOf(b) { HeadDetermines(H, a, b); }
  }

  // ---- the redacted chain ----

  function Masked(e: Event, secrets: seq<string>): Event {
    e.(command := Redaction.Redacted(e.command, secrets), previousHash := "", hash := "")
  }

  function MaskedAll(events: seq<Event>, secrets: seq<string>): seq<Event> {
    seq(|events|, i requires 0 <= i < |events| => Masked(events[i], secrets))
  }

  /** redactedEventsLocked: append every event again with its command redacted. */
  method RedactedEvents(H: Hashing, events: seq<Event>, secrets: seq<string>) returns (r: seq<Event>)
    ensures r == AppendAll(H, EMPTY, MaskedAll(events, secrets)).events
  {
    var log := EMPTY;
    ghost var all := MaskedAll(events, secrets);
    for i := 0 to |events|
      invariant AppendAll(H, log, all[i..]) == AppendAll(H, EMPTY, all)
    {
      var command := Redaction.Redact(events[i].command, secrets);
      assert all[i..][0] == all[i] && all[i..][1..] == all[i + 1..];
      log := Appended(H, log, events[i].(command := command, previousHash := "", hash := ""));
    }
    r := log.events;
  }

  lemma {:induction false} AppendAllAt(H: Hashing, log: Log, es: seq<Event>, i: nat)
    requires i < |es|
    ensures var r := AppendAll(H, log, es).events; |r| == |log.events| + |es|
    ensures var n := |log.events|; var r := AppendAll(H, log, es).events[n + i];
            r == es[i].(sequence := n + i + 1, previousHash := r.previousHash, hash := r.hash)
    decreases |es|
  {
    var next := Appended(H, log, es[0]);
    AppendAllPrefix(H, next, es[1..]);
    if i > 0 {
      AppendAllAt(H, next, es[1..], i - 1);
    }
  }

  lemma {:induction false} AppendAllPrefix(H: Hashing, log: Log, es: seq<Event>)
    ensures log.events <= AppendAll(H, log, es).events
    ensures |AppendAll(H, log, es).events| == |log.events| + |es|
    decreases |es|
  {
    if es != [] { AppendAllPrefix(H, Appended(H, log, es[0]), es[1..]); }
  }

  /** The exported chain verifies on its own, has the session's length and
      numbering, differs from it only in commands and links, and shows no secret. */
  lemma RedactedChain(H: Hashing, events: seq<Event>, secrets: seq<string>)
    requires Verified(H, events)
    requires forall s | s in secrets && s != "" :: Redaction.Clear(s)
    ensures var r := AppendAll(H, EMPTY, MaskedAll(events, secrets)).events;
            && Verified(H, r) && |r| == |events|
            && forall i | 0 <= i < |r| ::
                 && r[i].sequence == events[i].sequence
                 && r[i].(command := "", previousHash := "", hash := "")
                 == events[i].(command := "", previousHash := "", hash := "")
                 && !Redaction.Leaks(r[i].command, secrets)
                 && (!Redaction.Leaks(events[i].command, secrets) ==> r[i].command == events[i].command)
  {
    var es := MaskedAll(events, secrets);
    AppendAllVerified(H, EMPTY, es);
    var r := AppendAll(H, EMPTY, es).events;
    forall i: nat | i < |r|
      ensures r[i].sequence == events[i].sequence
      ensures r[i].(command := "", previousHash := "", hash := "") == events[i].(command := "", previousHash := "", hash := "")
      ensures !Redaction.Leaks(r[i].command, secrets)
      ensures !Redaction.Leaks(events[i].command, secrets) ==> r[i].command == events[i].command
    {
      AppendAllAt(H, EMPTY, es, i);
      assert Linked(H, events, i);
      Redaction.RedactsAll(events[i].command, secrets);
      if !Redaction.Leaks(events[i].command, secrets) { Redaction.RedactsNothing(events[i].command, secrets); }
    }
  }
}
