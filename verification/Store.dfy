/** internal/store/store.go as operations on tables; every SQL statement and the
    one transaction is one atomic step. */
module Store {
  import opened Evidence

  datatype Stamp = Unset | Set(at: int)

  datatype SessionRow = SessionRow(team: string, scenario: string, created: int, submitted: Stamp)

  datatype Meta = Meta(restarts: int, judgeScore: int, judgeNotes: string, judged: bool, submitted: bool)

  datatype Token = Token(owner: string, issued: int, expires: int, used: Stamp)

  /** sessions, evidence_events, session_meta and auth_refresh_tokens, by primary key. */
  datatype Tables = Tables(sessions: map<string, SessionRow>, evidence: map<(string, nat), Event>,
                           meta: map<string, Meta>, tokens: map<string, Token>)

  // ---- sessions and evidence ----

  /** On conflict the creation time stays. */
  function SessionSaved(t: Tables, id: string, team: string, scenario: string, created: int): Tables {
    if id in t.sessions then t else t.(sessions := t.sessions[id := SessionRow(team, scenario, created, Unset)])
  }

  /** INSERT OR REPLACE. */
  function EvidenceSaved(t: Tables, e: Event): Tables {
    t.(evidence := t.evidence[(e.sessionID, e.sequence) := e])
  }

  function EvidenceCleared(t: Tables, id: string): Tables {
    t.(evidence := map k | k in t.evidence && k.0 != id :: t.evidence[k])
  }

  function MetaSaved(t: Tables, id: string, meta: Meta): Tables { t.(meta := t.meta[id := meta]) }

  /** The sequence numbers stored for a session. */
  function Numbers(t: Tables, id: string): set<nat> { set k | k in t.evidence && k.0 == id :: k.1 }

  ghost predicate Least(n: nat, ns: set<nat>) { n in ns && forall m | m in ns :: n <= m }

  lemma {:induction false} LeastExists(ns: set<nat>)
    requires ns != {}
    ensures exists n :: Least(n, ns)
    decreases |ns|
  {
    var x :| x in ns;
    if ns == {x} {
      assert Least(x, ns);
    } else {
      LeastExists(ns - {x});
      var n :| Least(n, ns - {x});
      assert forall m | m in ns :: m == x || m in ns - {x};
      assert Least(if x < n then x else n, ns);
    }
  }

  /** ORDER BY sequence. */
  ghost function Ascending(ns: set<nat>): (r: seq<nat>)
    ensures |r| == |ns| && (forall n :: n in r <==> n in ns)
    ensures forall i, j | 0 <= i < j < |r| :: r[i] < r[j]
    decreases |ns|
  {
    if ns == {} then []
    else
      LeastExists(ns);
      var n :| Least(n, ns);
      var rest := Ascending(ns - {n});
      LeastInFront(n, rest, ns);
      [n] + rest
  }

  lemma LeastInFront(n: nat, rest: seq<nat>, ns: set<nat>)
    requires Least(n, ns) && |rest| == |ns - {n}| && (forall m :: m in rest <==> m in ns - {n})
    requires forall i, j | 0 <= i < j < |rest| :: rest[i] < rest[j]
    ensures |[n] + rest| == |ns| && (forall m :: m in [n] + rest <==> m in ns)
    ensures forall i, j | 0 <= i < j < |[n] + rest| :: ([n] + rest)[i] < ([n] + rest)[j]
  {
    forall i | 0 <= i < |rest| ensures n < rest[i] { assert rest[i] in rest; }
  }

  ghost function Loaded(t: Tables, id: string): seq<Event> {
    var ns := Ascending(Numbers(t, id));
    seq(|ns|, i requires 0 <= i < |ns| => Stored(t, id, ns[i]))
  }

  const NO_EVENT := Event("", 0, 0, 0, "", "", "", 0, [], "", "")

  function Stored(t: Tables, id: string, n: nat): Event {
    if (id, n) in t.evidence then t.evidence[(id, n)] else NO_EVENT
  }

  /** The rows of a session are exactly its events, numbered from 1. */
  ghost predicate RowsAre(t: Tables, id: string, events: seq<Event>) {
    && (forall n: nat :: (id, n) in t.evidence <==> 1 <= n <= |events|)
    && (forall n: nat | 1 <= n <= |events| :: t.evidence[(id, n)] == events[n - 1])
  }

  function UpTo(n: nat): seq<nat> { seq(n, i => i + 1) }

  lemma {:induction false} AscendingUnique(xs: seq<nat>, ys: seq<nat>)
    requires forall i, j | 0 <= i < j < |xs| :: xs[i] < xs[j]
    requires forall i, j | 0 <= i < j < |ys| :: ys[i] < ys[j]
    requires forall n :: n in xs <==> n in ys
    ensures xs == ys
    decreases |xs|
  {
    assert ys != [] ==> ys[0] in ys;
    if xs != [] {
      assert xs[0] in ys && ys != [] && ys[0] in xs;
      forall n
        ensures n in xs[1..] <==> n in ys[1..]
      {
        if n in xs[1..] { assert n in ys; }
        if n in ys[1..] { assert n in xs; }
      }
      AscendingUnique(xs[1..], ys[1..]);
    }
  }

  /** Loading gives back what the rows are. */
  lemma LoadGivesRows(t: Tables, id: string, events: seq<Event>)
    requires RowsAre(t, id, events)
    ensures Loaded(t, id) == events
  {
    NumbersAre(t, id, events);
    hide RowsAre, Numbers, Ascending;
    var ns := Numbers(t, id);
    AscendingUnique(Ascending(ns), UpTo(|events|));
    forall i | 0 <= i < |events| ensures Stored(t, id, UpTo(|events|)[i]) == events[i] { RowAt(t, id, events, i); }
  }

  lemma RowAt(t: Tables, id: string, events: seq<Event>, i: nat)
    requires RowsAre(t, id, events) && i < |events|
    ensures Stored(t, id, i + 1) == events[i]
  {
    assert (id, i + 1) in t.evidence;
  }

  lemma NumbersAre(t: Tables, id: string, events: seq<Event>)
    requires RowsAre(t, id, events)
    ensures forall n :: n in Numbers(t, id) <==> n in UpTo(|events|)
  {
    forall n: nat
      ensures n in Numbers(t, id) <==> n in UpTo(|events|)
    {
      assert 1 <= n <= |events| ==> UpTo(|events|)[n - 1] == n;
      assert n in Numbers(t, id) <==> (id, n) in t.evidence by { InNumbers(t, id, n); }
    }
  }

  lemma InNumbers(t: Tables, id: string, n: nat)
    ensures n in Numbers(t, id) <==> (id, n) in t.evidence
  {
    if (id, n) in t.evidence { assert (id, n).0 == id && (id, n).1 == n; }
  }

  /** Other sessions' rows are not touched. */
  ghost predicate OthersSame(t: Tables, u: Tables, id: string) {
    forall k: (string, nat) | k.0 != id :: (k in t.evidence <==> k in u.evidence) && (k in t.evidence ==> t.evidence[k] == u.evidence[k])
  }

  // ---- refresh tokens ----

  /** A primary key that exists is an error. */
  function TokenSaved(t: Tables, hash: string, owner: string, issued: int, expires: int): (Tables, bool) {
    if hash in t.tokens then (t, false)
    else (t.(tokens := t.tokens[hash := Token(owner, issued, expires, Unset)]), true)
  }

  /** RotateRefreshToken, one transaction: the owner, when the token was redeemed. */
  function TokenRotated(t: Tables, hash: string, now: int): (Tables, bool) {
    if hash !in t.tokens then (t, false)
    else
      var row := t.tokens[hash];
      if row.used.Set? || !(now < row.expires) then (t, false)
      else (t.(tokens := t.tokens[hash := row.(used := Set(now))]), true)
  }

  class Database {
    var sessions: map<string, SessionRow>
    var evidence: map<(string, nat), Event>
    var meta: map<string, Meta>
    var tokens: map<string, Token>

    ghost function View(): Tables reads this { Tables(sessions, evidence, meta, tokens) }

    constructor ()
      ensures View() == Tables(map[], map[], map[], map[])
    {
      sessions, evidence, meta, tokens := map[], map[], map[], map[];
    }

    method SaveSession(id: string, team: string, scenario: string, created: int)
      modifies this
      ensures View() == SessionSaved(old(View()), id, team, scenario, created)
    {
      if id !in sessions { sessions := sessions[id := SessionRow(team, scenario, created, Unset)]; }
    }

    method SaveEvidence(e: Event)
      modifies this
      ensures View() == EvidenceSaved(old(View()), e)
    {
      evidence := evidence[(e.sessionID, e.sequence) := e];
    }

    method ClearEvidence(id: string)
      modifies this
      ensures View() == EvidenceCleared(old(View()), id)
    {
      evidence := map k | k in evidence && k.0 != id :: evidence[k];
    }

    method SaveSessionMeta(id: string, m: Meta)
      modifies this
      ensures View() == MetaSaved(old(View()), id, m)
    {
      meta := meta[id := m];
    }

    method SaveRefreshToken(hash: string, owner: string, issued: int, expires: int) returns (ok: bool)
      modifies this
      ensures (View(), ok) == TokenSaved(old(View()), hash, owner, issued, expires)
    {
      if hash in tokens { return false; }
      tokens := tokens[hash := Token(owner, issued, expires, Unset)];
      ok := true;
    }

    method RotateRefreshToken(hash: string, now: int) returns (owner: string, ok: bool)
      modifies this
      ensures (View(), ok) == TokenRotated(old(View()), hash, now)
      ensures ok ==> hash in old(tokens) && owner == old(tokens)[hash].owner
    {
      if hash !in tokens { return "", false; }
      var row := tokens[hash];
      if row.used.Set? || !(now < row.expires) { return "", false; }
      tokens := tokens[hash := row.(used := Set(now))];
      return row.owner, true;
    }
  }
}
