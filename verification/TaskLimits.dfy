/** Where the promises about telling people stop. */
module TaskLimits {
  import opened Values
  import opened Tasks
  import opened TaskRuns

  /** Once an announced task has an owner, settling it clears every bell exactly when the owner
      is not called by the announcement's own mark and one page holds the unread ones. */
  lemma AssigningClearsIff(d: Desk, id: int, people: seq<string>)
    requires id in d.tasks && d.tasks[id].told == EVERYBODY && Open(d.tasks[id]) && Owner(d.tasks[id]) != ""
    requires Unread(d.notes, id) > 0
    ensures Unread(Settle(d, id, people).notes, id) == 0 <==>
      Owner(d.tasks[id]) != EVERYBODY && Unread(d.notes, id) <= WITHDRAW_LIMIT
  {
    hide Unread, Announced, To, Withdrawn, Sent, Open;
    var t := d.tasks[id];
    MarkIsStripped();
    WithdrawnCounts(d.notes, id, WITHDRAW_LIMIT, id);
    SentAdds(Withdrawn(d.notes, id, WITHDRAW_LIMIT), ASSIGNED, id, t.createdBy, [Owner(t)], id);
  }

  predicate BackThrough(handed: seq<string>, actor: string, k: nat) {
    k + 2 < |handed| && handed[k] == handed[k + 2] && handed[k + 1] == actor
  }

  /** The stored hand-over notices name one person twice running exactly when the task went
      from that person to its creator and back: the creator is not told of the creator's own
      task, and the person is told again. */
  lemma {:induction false} StoredRepeatsIff(handed: seq<string>, actor: string)
    requires NoRepeat(handed) && "" !in handed
    ensures NoRepeat(Others(handed, actor)) <==> forall k :: 0 <= k < |handed| ==> !BackThrough(handed, actor, k)
    ensures Others(handed, actor) != [] && handed[0] != actor ==> Others(handed, actor)[0] == handed[0]
    ensures Others(handed, actor) != [] && handed[0] == actor ==> |handed| > 1 && Others(handed, actor)[0] == handed[1]
    ensures Others(handed, actor) == [] ==> |handed| == 0 || (|handed| == 1 && handed[0] == actor)
  {
    if handed == [] {
    } else {
      var x, rest := handed[0], handed[1..];
      assert NoRepeat(rest) by {
        forall k | 0 <= k < |rest| - 1 ensures rest[k] != rest[k + 1] { assert handed[k + 1] != handed[k + 2]; }
      }
      StoredRepeatsIff(rest, actor);
      assert |handed| > 1 ==> handed[0] != handed[1];
      assert |handed| > 2 ==> handed[1] != handed[2];
      BackThroughTail(handed, actor);
      if x != actor { PrependRepeats(x, Others(rest, actor)); }
    }
  }

  lemma BackThroughTail(handed: seq<string>, actor: string)
    requires handed != []
    ensures (forall k :: 0 <= k < |handed| ==> !BackThrough(handed, actor, k)) <==>
      !BackThrough(handed, actor, 0) && forall k :: 0 <= k < |handed[1..]| ==> !BackThrough(handed[1..], actor, k)
  {
    var rest := handed[1..];
    forall k | 0 < k < |handed| ensures BackThrough(handed, actor, k) == BackThrough(rest, actor, k - 1) {
    }
    forall k | 0 <= k < |rest| ensures BackThrough(rest, actor, k) == BackThrough(handed, actor, k + 1) {
    }
  }

  lemma PrependRepeats(x: string, rest: seq<string>)
    ensures NoRepeat([x] + rest) <==> NoRepeat(rest) && (rest != [] ==> rest[0] != x)
  {
    var all := [x] + rest;
    assert forall k :: 0 <= k < |rest| ==> all[k + 1] == rest[k];
    if NoRepeat(all) && rest != [] { assert all[0] != all[1]; }
    if NoRepeat(all) {
      forall k | 0 <= k < |rest| - 1 ensures rest[k] != rest[k + 1] { assert all[k + 1] != all[k + 2]; }
    }
  }

  lemma {:induction false} AppendStep(d: Desk, steps: seq<Step>, step: Step)
    requires Runs(d, steps) && Enabled(After(d, steps), step)
    ensures Runs(d, steps + [step]) && After(d, steps + [step]) == Apply(After(d, steps), step)
    decreases |steps|
  {
    hide Enabled, Apply;
    if steps == [] {
      assert [step][1..] == [];
      assert Runs(Apply(d, step), []);
    } else {
      assert (steps + [step])[0] == steps[0] && (steps + [step])[1..] == steps[1..] + [step];
      AppendStep(Apply(d, steps[0]), steps[1..], step);
    }
  }

  /** Where a task created by ann stands: open, owned by `who`, and handed to `handed` so far. */
  ghost predicate Stands(d: Desk, who: string, handed: seq<string>) {
    d.tasks == map[1 := Task("open", who, who, "ann", None, None)] && d.log == map[1 := History(handed, 0, 0)]
  }

  lemma ChangesHands(d: Desk, owner: string, who: string, handed: seq<string>)
    requires Stands(d, owner, handed) && Strip(owner) == owner && owner !in {who, EVERYBODY}
    requires Strip(who) == who && who !in {"", EVERYBODY}
    ensures Enabled(d, Change(1, "open", who, []))
    ensures Stands(Apply(d, Change(1, "open", who, [])), who, handed + [who])
  {
    hide Strip, Sent;
  }

  lemma Unassigned()
    ensures Enabled(EMPTY, Create(1, Task("open", "", "", "ann", None, None), []))
    ensures Stands(Apply(EMPTY, Create(1, Task("open", "", "", "ann", None, None), [])), "", [])
  {
    assert Strip("") == "";
  }

  /** It happens: a task its creator takes over from somebody and gives back. */
  lemma CreatorInBetween() returns (steps: seq<Step>)
    ensures Runs(EMPTY, steps) && 1 in After(EMPTY, steps).tasks
    ensures To(After(EMPTY, steps).notes, ASSIGNED, 1) == ["bob", "bob"]
  {
    assert Strip("bob") == "bob" && Strip("ann") == "ann" && Strip("") == "";
    hide To, Apply, Enabled, Strip, After, Others;
    var create, toBob, toAnn := Create(1, Task("open", "", "", "ann", None, None), []),
                                Change(1, "open", "bob", []), Change(1, "open", "ann", []);
    Unassigned();
    NoSteps();
    AppendStep(EMPTY, [], create);
    steps := [] + [create];
    ChangesHands(After(EMPTY, steps), "", "bob", []);
    AppendStep(EMPTY, steps, toBob);
    steps := steps + [toBob];
    ChangesHands(After(EMPTY, steps), "bob", "ann", [] + ["bob"]);
    AppendStep(EMPTY, steps, toAnn);
    steps := steps + [toAnn];
    ChangesHands(After(EMPTY, steps), "ann", "bob", [] + ["bob"] + ["ann"]);
    AppendStep(EMPTY, steps, toBob);
    steps := steps + [toBob];
    ToldOnce(steps, 1);
    ThereAndBack();
  }

  lemma NoSteps()
    ensures Runs(EMPTY, []) && After(EMPTY, []) == EMPTY
  {
  }

  lemma ThereAndBack()
    ensures Others([] + ["bob"] + ["ann"] + ["bob"], "ann") == ["bob", "bob"]
  {
    var h := ["bob", "ann", "bob"];
    assert [] + ["bob"] + ["ann"] + ["bob"] == h;
    assert h[1..] == ["ann", "bob"] && h[1..][1..] == ["bob"] && ["bob"][1..] == [];
    assert Others(["bob"], "ann") == ["bob"] && Others(["ann", "bob"], "ann") == ["bob"];
  }
}
