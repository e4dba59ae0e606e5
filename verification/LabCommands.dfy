/** What each `lab` command does to the progress, to the machine and to the answer. */
module LabCommands {
  import opened Host
  import opened Interpreter
  import Evidence
  import Rules

  /** `lab`, run by the line's user, goes straight to RunLab. */
  lemma LabRuns(L: Line, c: Context, args: seq<string>, stdin: string)
    requires L.world.Sane() && Fit(c)
    ensures Invoke(L, c, "lab", args, stdin) == RunLab(L, c, args)
  {
    hide RunLab;
  }

  /** Everything but the progress is what it was. */
  ghost predicate OnlyLab(c: Context, d: Context) { d == c.(lab := d.lab) }

  /** `lab submit` records the submission at the machine's time, and nothing else. */
  lemma SubmitRecords(L: Line, c: Context, more: seq<string>)
    requires Fit(c)
    ensures var (d, reply) := RunLab(L, c, ["submit"] + more);
            && reply.exitCode == 0 && reply.mutations == ["submit"] && OnlyLab(c, d)
            && d.lab.submitted && d.lab.submittedAt == c.now.clock
            && d.lab == c.lab.(submitted := true, submittedAt := d.lab.submittedAt)
  {
    hide Join, TakeHint;
  }

  /** `lab note` puts its words, with single blanks between them, behind the notes. */
  lemma NoteIsKept(L: Line, c: Context, words: seq<string>)
    requires Fit(c)
    ensures var (d, reply) := RunLab(L, c, ["note"] + words);
            && reply.exitCode == 0 && OnlyLab(c, d) && d.lab == c.lab.(notes := d.lab.notes)
            && d.lab.notes == c.lab.notes + [Join(words, " ")]
  {
    hide Join, TakeHint;
    assert (["note"] + words)[1..] == words;
  }

  /** The first `lab answer` is the root cause, each later one the resolution. */
  lemma AnswersAreKept(L: Line, c: Context, words: seq<string>)
    requires Fit(c)
    ensures var (d, reply) := RunLab(L, c, ["answer"] + words);
            && reply.exitCode == 0 && OnlyLab(c, d)
            && (c.lab.rootCause == "" ==> d.lab == c.lab.(rootCause := Join(words, " ")))
            && (c.lab.rootCause != "" ==> d.lab == c.lab.(resolution := Join(words, " ")))
  {
    hide Join, TakeHint;
    assert (["answer"] + words)[1..] == words;
  }

  lemma JoinMeaning(xs: seq<string>, ys: seq<string>, x: string, separator: string)
    ensures Join([], separator) == "" && Join([x], separator) == x
    ensures xs != [] && ys != [] ==> Join(xs + ys, separator) == Join(xs, separator) + separator + Join(ys, separator)
    decreases |xs|
  {
    if xs != [] && ys != [] {
      assert (xs + ys)[0] == xs[0] && (xs + ys)[1..] == xs[1..] + ys;
      if |xs| == 1 {
        assert xs[1..] + ys == ys;
      } else {
        JoinMeaning(xs[1..], ys, x, separator);
        var a, b, e := xs[0] + separator, Join(xs[1..], separator), Join(ys, separator);
        assert a + (b + separator + e) == a + b + separator + e;
      }
    }
  }

  /** The hint that an id names: the first of the scenario's hints with that id. */
  ghost predicate Named(hints: seq<Hint>, id: string, i: nat) {
    i < |hints| && hints[i].id == id && forall j | 0 <= j < i :: hints[j].id != id
  }

  /** An unlocked hint that is new is given, charged and marked; one that is locked, used before or
      unknown changes nothing. */
  lemma HintExact(L: Line, c: Context, id: string, more: seq<string>, i: nat)
    requires Fit(c)
    ensures (forall h | h in L.world.hints :: h.id != id) ==>
              var (d, reply) := RunLab(L, c, ["hint", id] + more); d == c && reply.exitCode == 1
    ensures Named(L.world.hints, id, i) ==>
              var hint := L.world.hints[i];
              var (d, reply) := RunLab(L, c, ["hint", id] + more);
              && (id in c.lab.used ==> d == c && reply == Reply(0, "Hint already used.\n", "", []))
              && (id !in c.lab.used && c.now.clock - L.started < hint.unlockAfter ==> d == c && reply.exitCode == 1)
              && (id !in c.lab.used && c.now.clock - L.started >= hint.unlockAfter ==>
                    && OnlyLab(c, d) && d.lab == c.lab.(used := c.lab.used + {id}, hintCost := c.lab.hintCost + hint.cost)
                    && reply == Reply(0, hint.text + "\n", "", ["hint:" + id]))
  {
    hide Join;
    assert (["hint", id] + more)[1] == id;
    if Named(L.world.hints, id, i) { FoundHint(L.world.hints, id, i); }
  }

  lemma FoundHint(hints: seq<Hint>, id: string, i: nat)
    requires Named(hints, id, i)
    ensures FindHint(hints, id) == i
  {
    assert hints[i] in hints;
  }

  /** `lab reset` gives the snapshot's machine back and forgets the hints, and nothing else of the
      progress. */
  lemma ResetRestores(L: Line, c: Context, more: seq<string>)
    requires Fit(c)
    ensures var (d, reply) := RunLab(L, c, ["reset"] + more);
            && reply.exitCode == 0 && d.now == c.initial && d.initial == c.initial
            && d.lab == c.lab.(used := {}, hintCost := 0) && d.history == c.history && d.cwd == c.cwd
            && Variables(d) == Variables(c)
  {
    hide Join, TakeHint;
  }

  /** `lab evidence` accepts exactly a chain that verifies; the commands that only show something,
      and unknown ones, change nothing; without arguments it is `lab status`. */
  lemma ShowingChangesNothing(L: Line, c: Context, name: string, more: seq<string>)
    requires Fit(c)
    ensures RunLab(L, c, []) == RunLab(L, c, ["status"])
    ensures RunLab(L, c, ["status"]) == (c, Reply(0, L.world.status(c.now, c.lab.hintCost), "", []))
    ensures RunLab(L, c, ["evidence"] + more).0 == c
            && (RunLab(L, c, ["evidence"] + more).1.exitCode == 0 <==> Evidence.Verified(L.world.hashing, L.log.events))
    ensures name !in ["note", "answer", "hint", "reset", "submit"] ==> RunLab(L, c, [name] + more).0 == c
    ensures name !in ["note", "answer", "hint", "reset", "submit", "briefing", "objectives", "status", "check", "evidence"] ==>
              RunLab(L, c, [name] + more).1.exitCode == 1
  {
    hide Join, TakeHint, Evidence.Verified, Rules.Itoa;
  }
}
