/** What people are told over whole runs of creates, changes, dismissals and sweeps. */
module TaskRuns {
  import opened Values
  import opened Tasks

  // ----- counting notifications -----

  function Announced(notes: seq<Note>, id: int): nat {
    if notes == [] then 0
    else (if notes[0].kind == ANNOUNCED && notes[0].task == id then 1 else 0) + Announced(notes[1..], id)
  }

  function Unread(notes: seq<Note>, id: int): nat {
    if notes == [] then 0 else (if Withdrawable(notes[0], id) then 1 else 0) + Unread(notes[1..], id)
  }

  /** Whom the stored notices of one kind about a task went to. */
  function To(notes: seq<Note>, kind: Kind, id: int): seq<string> {
    if notes == [] then []
    else if notes[0].kind == kind && notes[0].task == id then [notes[0].recipient] + To(notes[1..], kind, id)
    else To(notes[1..], kind, id)
  }

  predicate SameAbout(a: seq<Note>, b: seq<Note>, id: int) {
    && Announced(a, id) == Announced(b, id) && Unread(a, id) == Unread(b, id)
    && To(a, ASSIGNED, id) == To(b, ASSIGNED, id) && To(a, DUE, id) == To(b, DUE, id)
  }

  ghost predicate SameElsewhere(a: seq<Note>, b: seq<Note>, id: int) {
    forall other :: other != id ==> SameAbout(a, b, other)
  }

  lemma {:induction false} ToConcat(a: seq<Note>, b: seq<Note>, kind: Kind, id: int)
    ensures To(a + b, kind, id) == To(a, kind, id) + To(b, kind, id)
  {
    if a == [] {
      assert a + b == b && [] + To(b, kind, id) == To(b, kind, id);
    } else {
      assert (a + b)[0] == a[0] && (a + b)[1..] == a[1..] + b;
      ToConcat(a[1..], b, kind, id);
      var x, y, first := To(a[1..], kind, id), To(b, kind, id), [a[0].recipient];
      assert first + (x + y) == (first + x) + y;
    }
  }

  lemma {:induction false} CountsConcat(a: seq<Note>, b: seq<Note>, id: int)
    ensures Announced(a + b, id) == Announced(a, id) + Announced(b, id)
    ensures Unread(a + b, id) == Unread(a, id) + Unread(b, id)
  {
    if a == [] {
      assert a + b == b;
    } else {
      assert (a + b)[0] == a[0] && (a + b)[1..] == a[1..] + b;
      CountsConcat(a[1..], b, id);
    }
  }

  lemma {:induction false} UnreadWithinAnnounced(notes: seq<Note>, id: int)
    ensures Unread(notes, id) <= Announced(notes, id)
  {
    if notes == [] {
    } else {
      UnreadWithinAnnounced(notes[1..], id);
    }
  }

  /** The people of a list who are not `actor`. */
  function Others(people: seq<string>, actor: string): seq<string> {
    if people == [] then []
    else if people[0] == actor || people[0] == "" then Others(people[1..], actor)
    else [people[0]] + Others(people[1..], actor)
  }

  lemma {:induction false} OthersConcat(a: seq<string>, b: seq<string>, actor: string)
    ensures Others(a + b, actor) == Others(a, actor) + Others(b, actor)
  {
    if a == [] {
      assert a + b == b && [] + Others(b, actor) == Others(b, actor);
    } else {
      assert (a + b)[0] == a[0] && (a + b)[1..] == a[1..] + b;
      OthersConcat(a[1..], b, actor);
      var x, y, first := Others(a[1..], actor), Others(b, actor), [a[0]];
      assert first + (x + y) == (first + x) + y;
    }
  }

  lemma {:induction false} SentCounts(kind: Kind, id: int, actor: string, rs: seq<string>, other: int)
    ensures var sent := Sent(kind, id, actor, rs);
      && Unread(sent, other) <= Announced(sent, other) <= |rs|
      && (other != id || kind != ANNOUNCED ==> Announced(sent, other) == 0)
  {
    if rs == [] {
    } else {
      SentCounts(kind, id, actor, rs[1..], other);
    }
  }

  lemma {:induction false} SentTo(kind: Kind, id: int, actor: string, rs: seq<string>, other: int, which: Kind)
    ensures To(Sent(kind, id, actor, rs), which, other) == if other == id && kind == which then Others(rs, actor) else []
  {
    if rs == [] {
    } else {
      SentTo(kind, id, actor, rs[1..], other, which);
    }
  }

  /** What sending adds to one task's notices. */
  lemma SentAdds(notes: seq<Note>, kind: Kind, id: int, actor: string, rs: seq<string>, other: int)
    ensures var after := notes + Sent(kind, id, actor, rs);
      && Announced(notes, other) <= Announced(after, other) <= Announced(notes, other) + |rs|
      && (other != id || kind != ANNOUNCED ==>
            Announced(after, other) == Announced(notes, other) && Unread(after, other) == Unread(notes, other))
      && To(after, ASSIGNED, other) == To(notes, ASSIGNED, other) + (if other == id && kind == ASSIGNED then Others(rs, actor) else [])
      && To(after, DUE, other) == To(notes, DUE, other) + (if other == id && kind == DUE then Others(rs, actor) else [])
  {
    var sent := Sent(kind, id, actor, rs);
    CountsConcat(notes, sent, other);
    SentCounts(kind, id, actor, rs, other);
    ToConcat(notes, sent, ASSIGNED, other);
    ToConcat(notes, sent, DUE, other);
    SentTo(kind, id, actor, rs, other, ASSIGNED);
    SentTo(kind, id, actor, rs, other, DUE);
  }

  lemma {:induction false} WithdrawnCounts(notes: seq<Note>, id: int, page: nat, other: int)
    ensures var w := Withdrawn(notes, id, page);
      && Announced(w, other) == Announced(notes, other)
      && Unread(w, other) == if other != id then Unread(notes, other)
                             else if Unread(notes, id) <= page then 0 else Unread(notes, id) - page
  {
    if notes == [] {
    } else {
      var p := if page > 0 && Withdrawable(notes[0], id) then page - 1 else page;
      WithdrawnCounts(notes[1..], id, p, other);
      assert Withdrawn(notes, id, page)[1..] == Withdrawn(notes[1..], id, p);
    }
  }

  /** Note by note: a withdrawal marks a task's unread announcements read, the first `page` of
      them, and changes nothing else. */
  lemma {:induction false} WithdrawnExactly(notes: seq<Note>, id: int, page: nat, k: nat)
    requires k < |notes|
    ensures Withdrawn(notes, id, page)[k] ==
      if notes[k].kind == ANNOUNCED && notes[k].task == id && !notes[k].read && Unread(notes[..k], id) < page
      then notes[k].(read := true) else notes[k]
  {
    if k > 0 {
      var p := if page > 0 && Withdrawable(notes[0], id) then page - 1 else page;
      WithdrawnExactly(notes[1..], id, p, k - 1);
      assert notes[..k][1..] == notes[1..][..k - 1];
    }
  }

  lemma {:induction false} WithdrawnTo(notes: seq<Note>, id: int, page: nat, kind: Kind, other: int)
    ensures To(Withdrawn(notes, id, page), kind, other) == To(notes, kind, other)
  {
    if notes == [] {
    } else {
      var p := if page > 0 && Withdrawable(notes[0], id) then page - 1 else page;
      WithdrawnTo(notes[1..], id, p, kind, other);
      assert Withdrawn(notes, id, page)[1..] == Withdrawn(notes[1..], id, p);
    }
  }

  lemma {:induction false} ReadCounts(notes: seq<Note>, k: nat, id: int)
    requires k < |notes|
    ensures var after := notes[k := notes[k].(read := true)];
      Announced(after, id) == Announced(notes, id) && Unread(after, id) <= Unread(notes, id)
  {
    var after := notes[k := notes[k].(read := true)];
    if k == 0 {
      assert after[1..] == notes[1..];
    } else {
      ReadCounts(notes[1..], k - 1, id);
      assert after[1..] == notes[1..][k - 1 := notes[k].(read := true)];
    }
  }

  lemma {:induction false} ReadTo(notes: seq<Note>, k: nat, kind: Kind, id: int)
    requires k < |notes|
    ensures To(notes[k := notes[k].(read := true)], kind, id) == To(notes, kind, id)
  {
    var after := notes[k := notes[k].(read := true)];
    if k == 0 {
      assert after[1..] == notes[1..];
    } else {
      ReadTo(notes[1..], k - 1, kind, id);
      assert after[1..] == notes[1..][k - 1 := notes[k].(read := true)];
    }
  }

  // ----- what is always so -----

  predicate NoRepeat(people: seq<string>) {
    forall k :: 0 <= k < |people| - 1 ==> people[k] != people[k + 1]
  }

  /** The state of one task's affairs. */
  ghost predicate Fine(t: Task, notes: seq<Note>, h: History, id: int) {
    && Strip(t.told) == t.told
    && Announced(notes, id) <= WITHDRAW_LIMIT && (t.told == "" ==> Announced(notes, id) == 0)
    && (Unread(notes, id) > 0 ==> t.told == EVERYBODY)
    && (t.told in {"", EVERYBODY} ==> h.handed == [])
    && (t.told !in {"", EVERYBODY} ==> h.handed != [] && h.handed[|h.handed| - 1] == t.told)
    && NoRepeat(h.handed) && "" !in h.handed
    && To(notes, ASSIGNED, id) == Others(h.handed, t.createdBy)
    && (h.batches == 0 ==> To(notes, DUE, id) == [])
    && h.batches <= h.reopened + (if t.remindedAt.Some? then 1 else 0)
  }

  ghost predicate FineAt(d: Desk, id: int)
    requires id in d.tasks && id in d.log
  {
    Fine(d.tasks[id], d.notes, d.log[id], id)
  }

  /** An unread announcement is only of an open task that nobody owns. */
  ghost predicate Quiet(d: Desk, id: int) {
    id in d.tasks && (Unread(d.notes, id) > 0 ==>
      Open(d.tasks[id]) && Owner(d.tasks[id]) == "" && d.tasks[id].told == EVERYBODY)
  }

  ghost predicate Sound(d: Desk) {
    && d.tasks.Keys == d.log.Keys
    && (forall id :: id in d.tasks ==> FineAt(d, id))
    && (forall id :: id in d.tasks ==> Owner(d.tasks[id]) != EVERYBODY)
    && (forall k :: 0 <= k < |d.notes| ==> d.notes[k].task in d.tasks)
  }

  /** What a task's affairs look like elsewhere on the desk does not concern it. */
  lemma FineElsewhere(t: Task, a: seq<Note>, b: seq<Note>, h: History, id: int)
    requires Fine(t, a, h, id) && SameAbout(a, b, id)
    ensures Fine(t, b, h, id)
  {
  }

  lemma WithdrawKeepsFine(d: Desk, id: int)
    requires Sound(d) && id in d.tasks
    ensures Sound(Withdraw(d, id)) && Unread(Withdraw(d, id).notes, id) == 0
    ensures SameElsewhere(d.notes, Withdraw(d, id).notes, id)
  {
    hide SameAbout, NoRepeat, Strip;
    var after := Withdraw(d, id);
    assert FineAt(d, id);
    UnreadWithinAnnounced(d.notes, id);
    WithdrawnCounts(d.notes, id, WITHDRAW_LIMIT, id);
    WithdrawnTo(d.notes, id, WITHDRAW_LIMIT, ASSIGNED, id);
    WithdrawnTo(d.notes, id, WITHDRAW_LIMIT, DUE, id);
    assert FineAt(after, id);
    forall other | other != id ensures SameAbout(d.notes, after.notes, other) {
      WithdrawnElsewhere(d.notes, id, other);
    }
    forall other | other in d.tasks && other != id ensures FineAt(after, other) {
      assert FineAt(d, other);
      FineElsewhere(d.tasks[other], d.notes, after.notes, d.log[other], other);
    }
    WithdrawnTasks(d.notes, id, WITHDRAW_LIMIT);
  }

  lemma WithdrawnElsewhere(notes: seq<Note>, id: int, other: int)
    requires other != id
    ensures SameAbout(notes, Withdrawn(notes, id, WITHDRAW_LIMIT), other)
  {
    WithdrawnCounts(notes, id, WITHDRAW_LIMIT, other);
    WithdrawnTo(notes, id, WITHDRAW_LIMIT, ASSIGNED, other);
    WithdrawnTo(notes, id, WITHDRAW_LIMIT, DUE, other);
  }

  lemma {:induction false} WithdrawnTasks(notes: seq<Note>, id: int, page: nat)
    ensures forall k :: 0 <= k < |notes| ==> Withdrawn(notes, id, page)[k].task == notes[k].task
  {
    if notes == [] {
    } else {
      WithdrawnTasks(notes[1..], id, if page > 0 && Withdrawable(notes[0], id) then page - 1 else page);
    }
  }

  lemma {:induction false} SentTasks(kind: Kind, id: int, actor: string, rs: seq<string>)
    ensures forall n :: n in Sent(kind, id, actor, rs) ==> n.task == id
  {
    if rs == [] {
    } else {
      SentTasks(kind, id, actor, rs[1..]);
    }
  }

  /** Sending about one task, and writing its row, leaves every other task's affairs alone. */
  lemma SendElsewhere(d: Desk, after: Desk, id: int, kind: Kind, actor: string, rs: seq<string>)
    requires Sound(d) && id in d.tasks && after.notes == d.notes + Sent(kind, id, actor, rs)
    requires after.tasks.Keys == d.tasks.Keys && after.log.Keys == d.log.Keys
    requires forall other :: other in d.tasks && other != id ==>
               after.tasks[other] == d.tasks[other] && after.log[other] == d.log[other]
    requires FineAt(after, id) && Owner(after.tasks[id]) != EVERYBODY
    ensures Sound(after)
    ensures SameElsewhere(d.notes, after.notes, id)
  {
    hide SameAbout, Fine, Owner;
    forall other | other != id ensures SameAbout(d.notes, after.notes, other) {
      SentElsewhere(d.notes, kind, id, actor, rs, other);
    }
    forall other | other in d.tasks && other != id ensures FineAt(after, other) {
      assert FineAt(d, other);
      FineElsewhere(d.tasks[other], d.notes, after.notes, d.log[other], other);
    }
    SentTasks(kind, id, actor, rs);
    forall k | 0 <= k < |after.notes| ensures after.notes[k].task in after.tasks {
      if k >= |d.notes| { assert after.notes[k] in Sent(kind, id, actor, rs); }
    }
  }

  lemma SentElsewhere(notes: seq<Note>, kind: Kind, id: int, actor: string, rs: seq<string>, other: int)
    requires other != id
    ensures SameAbout(notes, notes + Sent(kind, id, actor, rs), other)
  {
    SentAdds(notes, kind, id, actor, rs, other);
  }

  /** Handing a task over to somebody new, once its announcement is withdrawn. */
  lemma HandToKeepsSound(d: Desk, id: int, who: string)
    requires Sound(d) && id in d.tasks && Unread(d.notes, id) == 0
    requires who !in {"", EVERYBODY, d.tasks[id].told} && Strip(who) == who
    ensures Sound(HandTo(d, id, who)) && Unread(HandTo(d, id, who).notes, id) == 0
    ensures SameElsewhere(d.notes, HandTo(d, id, who).notes, id)
  {
    hide SameAbout, Strip, Announced, Unread, To, Sent;
    var after, t, h := HandTo(d, id, who), d.tasks[id], d.log[id];
    assert FineAt(d, id);
    SentAdds(d.notes, ASSIGNED, id, t.createdBy, [who], id);
    OthersConcat(h.handed, [who], t.createdBy);
    assert NoRepeat(h.handed + [who]);
    assert FineAt(after, id);
    SendElsewhere(d, after, id, ASSIGNED, t.createdBy, [who]);
  }

  /** Settling a task keeps everything in order, and leaves no unread announcement of a task
      that is closed or has an owner. */
  lemma SettleKeepsSound(d: Desk, id: int, people: seq<string>)
    requires Sound(d) && id in d.tasks && |people| <= WITHDRAW_LIMIT
    ensures Sound(Settle(d, id, people)) && Quiet(Settle(d, id, people), id)
    ensures SameElsewhere(d.notes, Settle(d, id, people).notes, id)
  {
    hide Sound, Fine, SameAbout, Strip;
    var t := d.tasks[id];
    TaskFacts(d, id);
    if t.told == EVERYBODY { WithdrawKeepsFine(d, id); }
    StripTwice(t.assignee);
    if Open(t) && Owner(t) != "" {
      if Owner(t) != t.told {
        HandToKeepsSound(if t.told == EVERYBODY then Withdraw(d, id) else d, id, Owner(t));
        SameElsewhereTwice(d.notes, Withdraw(d, id).notes, Settle(d, id, people).notes, id);
      }
    } else if Open(t) && t.told == "" && people != [] {
      AnnounceKeepsSound(d, id, people);
    }
    SameAboutSelf(d.notes, id);
  }

  lemma TaskFacts(d: Desk, id: int)
    requires Sound(d) && id in d.tasks
    ensures Strip(d.tasks[id].told) == d.tasks[id].told && Owner(d.tasks[id]) != EVERYBODY && id in d.log
    ensures Unread(d.notes, id) > 0 ==> d.tasks[id].told == EVERYBODY
  {
    assert FineAt(d, id);
  }

  lemma SameAboutSelf(a: seq<Note>, id: int)
    ensures SameElsewhere(a, a, id)
  {
  }

  lemma SameElsewhereTwice(a: seq<Note>, b: seq<Note>, c: seq<Note>, id: int)
    ensures SameElsewhere(a, b, id) && SameElsewhere(b, c, id) ==> SameElsewhere(a, c, id)
  {
    if SameElsewhere(a, b, id) && SameElsewhere(b, c, id) {
      forall other | other != id ensures SameAbout(a, c, other) {
        assert SameAbout(a, b, other) && SameAbout(b, c, other);
      }
    }
  }

  lemma MarkIsStripped()
    ensures Strip("") == "" && Strip(EVERYBODY) == EVERYBODY
  {
  }

  lemma AnnounceKeepsSound(d: Desk, id: int, people: seq<string>)
    requires Sound(d) && id in d.tasks && |people| <= WITHDRAW_LIMIT && people != []
    requires Open(d.tasks[id]) && Owner(d.tasks[id]) == "" && d.tasks[id].told == ""
    ensures Sound(Settle(d, id, people)) && Quiet(Settle(d, id, people), id)
    ensures SameElsewhere(d.notes, Settle(d, id, people).notes, id)
  {
    hide SameAbout, Announced, Unread, To, Sent, Strip, NoRepeat, Others;
    var after, t := Settle(d, id, people), d.tasks[id];
    assert FineAt(d, id);
    MarkIsStripped();
    assert Announcement(t, people) == people;
    SentAdds(d.notes, ANNOUNCED, id, t.createdBy, people, id);
    assert FineAt(after, id);
    SendElsewhere(d, after, id, ANNOUNCED, t.createdBy, people);
  }

  /** Settling a settled task again changes nothing and sends nothing. */
  lemma SettleTwice(d: Desk, id: int, people: seq<string>)
    requires Sound(d) && id in d.tasks && |people| <= WITHDRAW_LIMIT
    ensures Settle(Settle(d, id, people), id, people) == Settle(d, id, people)
  {
    hide Sound, SameAbout;
    SettleKeepsSound(d, id, people);
    var after := Settle(d, id, people);
    TaskFacts(d, id);
    TaskFacts(after, id);
    StripTwice(d.tasks[id].assignee);
    if !Open(after.tasks[id]) && after.tasks[id].told == EVERYBODY {
      NothingToWithdraw(after.notes, id, WITHDRAW_LIMIT);
    }
  }

  lemma {:induction false} NothingToWithdraw(notes: seq<Note>, id: int, page: nat)
    requires Unread(notes, id) == 0
    ensures Withdrawn(notes, id, page) == notes
  {
    if notes == [] {
    } else {
      NothingToWithdraw(notes[1..], id, page);
    }
  }

  lemma SweepKeepsSound(d: Desk, id: int, watchers: seq<string>, now: int, window: int)
    requires Sound(d) && id in d.tasks
    ensures Sound(SweepOne(d, id, watchers, now, window))
    ensures Quiet(d, id) ==> Quiet(SweepOne(d, id, watchers, now, window), id)
    ensures SameElsewhere(d.notes, SweepOne(d, id, watchers, now, window).notes, id)
  {
    hide Sound, Fine, SameAbout, Strip;
    var t, mid, after := d.tasks[id], SweepHandover(d, id), SweepOne(d, id, watchers, now, window);
    TaskFacts(d, id);
    StripTwice(t.assignee);
    SameAboutSelf(d.notes, id);
    if Handover(t).Some? {
      if t.told == EVERYBODY { WithdrawKeepsFine(d, id); }
      HandToKeepsSound(if t.told == EVERYBODY then Withdraw(d, id) else d, id, Owner(t));
      SameElsewhereTwice(d.notes, Withdraw(d, id).notes, mid.notes, id);
    }
    if after != mid {
      var rs := if Reminder(t, now, window).Some? then [Owner(t)] else UnassignedAlert(t, watchers, now, window);
      RemindKeepsSound(mid, id, rs, now);
      SameElsewhereTwice(d.notes, mid.notes, after.notes, id);
    }
  }

  /** A due-date batch goes out only for a task not reminded yet, and is written down. */
  lemma RemindKeepsSound(d: Desk, id: int, rs: seq<string>, now: int)
    requires Sound(d) && id in d.tasks && d.tasks[id].remindedAt.None?
    ensures Sound(Remind(d, id, rs, now)) && Unread(Remind(d, id, rs, now).notes, id) == Unread(d.notes, id)
    ensures SameElsewhere(d.notes, Remind(d, id, rs, now).notes, id)
  {
    hide SameAbout, Strip;
    var after := Remind(d, id, rs, now);
    assert FineAt(d, id);
    SentAdds(d.notes, DUE, id, "", rs, id);
    assert FineAt(after, id);
    SendElsewhere(d, after, id, DUE, "", rs);
  }

  /** Settling tells exactly: a new owner of an open task, or, of an open task that nobody owns
      and nothing was said about, everybody who could take it; in either case not its creator. */
  lemma SettleTells(d: Desk, id: int, people: seq<string>)
    requires id in d.tasks
    ensures var t, after := d.tasks[id], Settle(d, id, people);
      && To(after.notes, ASSIGNED, id) == To(d.notes, ASSIGNED, id)
           + Others(if t.state in {"open", "doing", "blocked"} && Owner(t) != "" && Owner(t) != Strip(t.told) then [Owner(t)] else [],
                    t.createdBy)
      && To(after.notes, ANNOUNCED, id) == To(d.notes, ANNOUNCED, id)
           + Others(if t.state in {"open", "doing", "blocked"} && Owner(t) == "" && Strip(t.told) == "" then people else [],
                    t.createdBy)
      && To(after.notes, DUE, id) == To(d.notes, DUE, id)
      && id in after.tasks
      && after.tasks[id] == t.(told :=
           if t.state !in {"open", "doing", "blocked"} then t.told
           else if Owner(t) != "" then (if Owner(t) == Strip(t.told) then t.told else Owner(t))
           else if Strip(t.told) == "" && people != [] then "*" else t.told)
  {
    hide To, Sent, Strip, Others;
    var t := d.tasks[id];
    NobodyElse(t.createdBy);
    var handed := Open(t) && Handover(t).Some?;
    var notes := if Strip(t.told) == EVERYBODY && (handed || !Open(t)) then Withdraw(d, id).notes else d.notes;
    var kind, rs := if handed then ASSIGNED else ANNOUNCED,
                    if handed then [Handover(t).value] else if Open(t) then Announcement(t, people) else [];
    NothingSent(kind, id, t.createdBy);
    assert Settle(d, id, people).notes == notes + Sent(kind, id, t.createdBy, rs);
    forall which | which in {ASSIGNED, ANNOUNCED, DUE}
      ensures To(notes + Sent(kind, id, t.createdBy, rs), which, id)
           == To(d.notes, which, id) + (if kind == which then Others(rs, t.createdBy) else [])
    {
      WithdrawnTo(d.notes, id, WITHDRAW_LIMIT, which, id);
      ToConcat(notes, Sent(kind, id, t.createdBy, rs), which, id);
      SentTo(kind, id, t.createdBy, rs, id, which);
    }
  }

  lemma NothingSent(kind: Kind, id: int, actor: string)
    ensures Sent(kind, id, actor, []) == []
  {
  }

  /** Whom a due task's turn in a sweep warns: the owner, and where there is none the watchers. */
  function Warned(t: Task, watchers: seq<string>, now: int, window: int): seq<string> {
    if t.dueAt.None? || t.remindedAt.Some? || t.dueAt.value > now + window then []
    else if Owner(t) != "" then [Owner(t)] else watchers
  }

  /** A sweep warns exactly of a due task not warned of before that has somebody to tell, tells
      each of them once, and notes it, so that the next sweep is silent. */
  lemma SweepWarns(d: Desk, id: int, watchers: seq<string>, now: int, window: int)
    requires id in d.tasks
    ensures var after, warned := SweepOne(d, id, watchers, now, window), Warned(d.tasks[id], watchers, now, window);
      && id in after.tasks
      && To(after.notes, DUE, id) == To(d.notes, DUE, id) + Others(warned, "")
      && after.tasks[id].remindedAt == (if warned == [] then d.tasks[id].remindedAt else Some(now))
  {
    hide To, Sent, Strip, Announced, Unread, Others;
    var t, mid := d.tasks[id], SweepHandover(d, id);
    if Handover(t).Some? {
      var notes := if t.told == EVERYBODY then Withdraw(d, id).notes else d.notes;
      WithdrawnTo(d.notes, id, WITHDRAW_LIMIT, DUE, id);
      SentAdds(notes, ASSIGNED, id, t.createdBy, [Owner(t)], id);
    }
    assert To(mid.notes, DUE, id) == To(d.notes, DUE, id);
    SentAdds(mid.notes, DUE, id, "", Warned(t, watchers, now, window), id);
    NobodyElse("");
  }

  /** And it tells exactly a new owner that the task is theirs, whoever wrote it there, writes
      down that they were told, and takes an announcement of it off every bell. */
  lemma SweepTells(d: Desk, id: int, watchers: seq<string>, now: int, window: int)
    requires id in d.tasks
    ensures var t, after := d.tasks[id], SweepOne(d, id, watchers, now, window);
            var anew := Owner(t) != "" && Owner(t) != Strip(t.told);
      && id in after.tasks
      && To(after.notes, ASSIGNED, id) == To(d.notes, ASSIGNED, id) + Others(if anew then [Owner(t)] else [], t.createdBy)
      && To(after.notes, ANNOUNCED, id) == To(d.notes, ANNOUNCED, id)
      && after.tasks[id].told == (if anew then Owner(t) else t.told)
      && (anew && t.told == EVERYBODY && Unread(d.notes, id) <= WITHDRAW_LIMIT ==> Unread(after.notes, id) == 0)
  {
    hide To, Sent, Strip, Announced, Unread, Others;
    var t, mid := d.tasks[id], SweepHandover(d, id);
    NobodyElse(t.createdBy);
    if Handover(t).Some? {
      var notes := if t.told == EVERYBODY then Withdraw(d, id).notes else d.notes;
      WithdrawnTo(d.notes, id, WITHDRAW_LIMIT, ASSIGNED, id);
      WithdrawnTo(d.notes, id, WITHDRAW_LIMIT, ANNOUNCED, id);
      WithdrawnCounts(d.notes, id, WITHDRAW_LIMIT, id);
      SentAdds(notes, ASSIGNED, id, t.createdBy, [Owner(t)], id);
      AnnouncedTo(notes, ASSIGNED, id, t.createdBy, [Owner(t)], id);
    }
    SentAdds(mid.notes, DUE, id, "", Warned(t, watchers, now, window), id);
    AnnouncedTo(mid.notes, DUE, id, "", Warned(t, watchers, now, window), id);
  }

  lemma AnnouncedTo(notes: seq<Note>, kind: Kind, id: int, actor: string, rs: seq<string>, other: int)
    requires kind != ANNOUNCED
    ensures To(notes + Sent(kind, id, actor, rs), ANNOUNCED, other) == To(notes, ANNOUNCED, other)
  {
    ToConcat(notes, Sent(kind, id, actor, rs), ANNOUNCED, other);
    SentTo(kind, id, actor, rs, other, ANNOUNCED);
  }

  lemma NobodyElse(actor: string)
    ensures Others([], actor) == []
  {
  }

  // ----- runs -----

  /** Writes through the announcing provider settle the task they touch; a write behind it
      does not. Reopening clears the reminder. */
  datatype Step =
    | Create(id: int, task: Task, people: seq<string>)
    | Change(id: int, state: string, assignee: string, people: seq<string>)
    | Behind(id: int, state: string, assignee: string)
    | Reschedule(id: int, dueAt: Option<int>)
    | Reopen(id: int, people: seq<string>)
    | Dismiss(note: nat)
    | Sweep(id: int, watchers: seq<string>, now: int, window: int)

  /** Nobody is called by the announcement's mark, and no list of people is longer than the
      page a withdrawal reads. */
  predicate Enabled(d: Desk, step: Step) {
    match step
    case Create(id, task, people) =>
      id !in d.tasks && task.told == "" && task.remindedAt.None? && Owner(task) != EVERYBODY && |people| <= WITHDRAW_LIMIT
    case Change(id, _, assignee, people) => id in d.tasks && Strip(assignee) != EVERYBODY && |people| <= WITHDRAW_LIMIT
    case Behind(id, _, assignee) => id in d.tasks && Strip(assignee) != EVERYBODY
    case Reschedule(id, _) => id in d.tasks
    case Reopen(id, people) => id in d.tasks && |people| <= WITHDRAW_LIMIT
    case Dismiss(k) => k < |d.notes|
    case Sweep(id, _, _, _) => id in d.tasks && Open(d.tasks[id])
  }

  /** Any task can be written to, through the provider or behind it, and reopened; any note can
      be dismissed; and any open task's turn in a sweep can come. */
  lemma EnvironmentIsFree(d: Desk, id: int, assignee: string, state: string, people: seq<string>, now: int, window: int)
    requires id in d.tasks && Strip(assignee) != EVERYBODY && |people| <= WITHDRAW_LIMIT
    ensures Enabled(d, Change(id, state, assignee, people)) && Enabled(d, Behind(id, state, assignee))
    ensures Enabled(d, Reopen(id, people)) && forall due :: Enabled(d, Reschedule(id, due))
    ensures forall k: nat :: k < |d.notes| ==> Enabled(d, Dismiss(k))
    ensures d.tasks[id].state in {"open", "doing", "blocked"} ==> Enabled(d, Sweep(id, people, now, window))
  {
  }

  function Put(d: Desk, id: int, t: Task): Desk {
    d.(tasks := d.tasks[id := t])
  }

  function Apply(d: Desk, step: Step): Desk
    requires Enabled(d, step)
  {
    match step
    case Create(id, task, people) => Settle(Put(d, id, task).(log := d.log[id := History([], 0, 0)]), id, people)
    case Change(id, state, assignee, people) =>
      Settle(Put(d, id, d.tasks[id].(state := state, assignee := assignee)), id, people)
    case Behind(id, state, assignee) => Put(d, id, d.tasks[id].(state := state, assignee := assignee))
    case Reschedule(id, dueAt) => Put(d, id, d.tasks[id].(dueAt := dueAt))
    case Reopen(id, people) =>
      var h := HistoryOf(d, id);
      Settle(Put(d, id, d.tasks[id].(state := "open", remindedAt := None))
             .(log := d.log[id := h.(reopened := h.reopened + 1)]), id, people)
    case Dismiss(k) => d.(notes := d.notes[k := d.notes[k].(read := true)])
    case Sweep(id, watchers, now, window) => SweepOne(d, id, watchers, now, window)
  }

  /** Columns that nothing was said about may change freely. */
  lemma PutKeepsSound(d: Desk, id: int, t: Task, h: History)
    requires Sound(d) && id in d.tasks && Owner(t) != EVERYBODY
    requires t.told == d.tasks[id].told && t.createdBy == d.tasks[id].createdBy && h.handed == d.log[id].handed
    requires h.batches == d.log[id].batches <= h.reopened + (if t.remindedAt.Some? then 1 else 0)
    ensures Sound(Put(d, id, t).(log := d.log[id := h]))
  {
    hide Strip, Owner;
    var after := Put(d, id, t).(log := d.log[id := h]);
    assert FineAt(d, id);
    forall other | other in after.tasks ensures FineAt(after, other) {
      if other != id { assert FineAt(d, other); }
    }
  }

  lemma {:induction false} NoNotesOfStranger(notes: seq<Note>, id: int)
    requires forall k :: 0 <= k < |notes| ==> notes[k].task != id
    ensures Announced(notes, id) == Unread(notes, id) == 0 && To(notes, ASSIGNED, id) == To(notes, DUE, id) == []
  {
    if notes == [] {
    } else {
      NoNotesOfStranger(notes[1..], id);
    }
  }

  lemma CreateKeepsSound(d: Desk, id: int, t: Task)
    requires Sound(d) && id !in d.tasks && t.told == "" && t.remindedAt.None? && Owner(t) != EVERYBODY
    ensures Sound(Put(d, id, t).(log := d.log[id := History([], 0, 0)]))
  {
    var after := Put(d, id, t).(log := d.log[id := History([], 0, 0)]);
    NoNotesOfStranger(d.notes, id);
    forall other | other in after.tasks ensures FineAt(after, other) {
      if other != id { assert FineAt(d, other); }
    }
  }

  lemma DismissKeepsSound(d: Desk, k: nat)
    requires Sound(d) && k < |d.notes|
    ensures Sound(Apply(d, Dismiss(k)))
    ensures forall id :: Unread(Apply(d, Dismiss(k)).notes, id) <= Unread(d.notes, id)
  {
    hide Fine, Owner, Announced, Unread, To;
    var after := Apply(d, Dismiss(k));
    forall id ensures Unread(after.notes, id) <= Unread(d.notes, id) { ReadCounts(d.notes, k, id); }
    forall id | id in after.tasks ensures FineAt(after, id) {
      assert FineAt(d, id);
      ReadKeepsFine(d.tasks[id], d.notes, k, d.log[id], id);
    }
  }

  lemma ReadKeepsFine(t: Task, notes: seq<Note>, k: nat, h: History, id: int)
    requires Fine(t, notes, h, id) && k < |notes|
    ensures Fine(t, notes[k := notes[k].(read := true)], h, id)
  {
    hide Announced, Unread, To, Strip;
    ReadCounts(notes, k, id);
    ReadTo(notes, k, ASSIGNED, id);
    ReadTo(notes, k, DUE, id);
  }

  /** The desk a settling step settles. */
  function Written(d: Desk, step: Step): Desk
    requires Enabled(d, step)
  {
    match step
    case Create(id, task, _) => Put(d, id, task).(log := d.log[id := History([], 0, 0)])
    case Change(id, state, assignee, _) => Put(d, id, d.tasks[id].(state := state, assignee := assignee))
    case Reopen(id, _) =>
      var h := HistoryOf(d, id);
      Put(d, id, d.tasks[id].(state := "open", remindedAt := None)).(log := d.log[id := h.(reopened := h.reopened + 1)])
    case _ => d
  }

  lemma BatchesWithinReopenings(d: Desk, id: int)
    requires Sound(d) && id in d.tasks
    ensures d.log[id].batches <= d.log[id].reopened + (if d.tasks[id].remindedAt.Some? then 1 else 0)
  {
    assert FineAt(d, id);
  }

  lemma WrittenKeepsSound(d: Desk, step: Step)
    requires Sound(d) && Enabled(d, step) && (step.Create? || step.Change? || step.Reopen?)
    ensures Sound(Written(d, step)) && step.id in Written(d, step).tasks
    ensures Written(d, step).notes == d.notes
    ensures Apply(d, step) == Settle(Written(d, step), step.id, step.people)
    ensures forall other :: other in d.tasks && other != step.id ==>
              other in Written(d, step).tasks && Written(d, step).tasks[other] == d.tasks[other]
  {
    hide Strip, Settle, Fine, Open;
    var id := step.id;
    if step.Create? {
      CreateKeepsSound(d, id, step.task);
    } else {
      var h, t := d.log[id], d.tasks[id];
      BatchesWithinReopenings(d, id);
      if step.Change? {
        PutKeepsSound(d, id, t.(state := step.state, assignee := step.assignee), h);
        assert d.log[id := h] == d.log;
      } else {
        PutKeepsSound(d, id, t.(state := "open", remindedAt := None), h.(reopened := h.reopened + 1));
      }
    }
  }

  lemma StepKeepsSound(d: Desk, step: Step)
    requires Sound(d) && Enabled(d, step)
    ensures Sound(Apply(d, step))
  {
    hide Sound, Settle, SweepOne, Strip;
    if step.Create? || step.Change? || step.Reopen? {
      WrittenKeepsSound(d, step);
      SettleKeepsSound(Written(d, step), step.id, step.people);
    } else if step.Sweep? {
      SweepKeepsSound(d, step.id, step.watchers, step.now, step.window);
    } else if step.Dismiss? {
      DismissKeepsSound(d, step.note);
    } else {
      LooseWriteKeepsSound(d, step);
    }
  }

  lemma LooseWriteKeepsSound(d: Desk, step: Step)
    requires Sound(d) && Enabled(d, step) && (step.Behind? || step.Reschedule?)
    ensures Sound(Apply(d, step)) && Apply(d, step).notes == d.notes
  {
    hide Strip;
    assert FineAt(d, step.id);
    var t, h := d.tasks[step.id], d.log[step.id];
    PutKeepsSound(d, step.id, if step.Behind? then t.(state := step.state, assignee := step.assignee)
                              else t.(dueAt := step.dueAt), h);
    assert d.log[step.id := h] == d.log;
  }

  ghost predicate AllQuiet(d: Desk) {
    forall id :: id in d.tasks ==> Quiet(d, id)
  }

  /** With every write going through the provider, no task is ever left with a stray
      announcement. */
  lemma StepKeepsQuiet(d: Desk, step: Step)
    requires Sound(d) && AllQuiet(d) && Enabled(d, step) && !step.Behind?
    ensures AllQuiet(Apply(d, step))
  {
    hide Sound, Settle, SweepOne, Strip;
    var after := Apply(d, step);
    if step.Create? || step.Change? || step.Reopen? {
      var mid := Written(d, step);
      WrittenKeepsSound(d, step);
      SettleKeepsSound(mid, step.id, step.people);
      SettleTouchesOne(mid, step.id, step.people);
      forall id | id in after.tasks ensures Quiet(after, id) {
        if id != step.id { assert Quiet(d, id) && SameAbout(mid.notes, after.notes, id); }
      }
    } else if step.Sweep? {
      SweepKeepsSound(d, step.id, step.watchers, step.now, step.window);
      SweepTouchesOne(d, step.id, step.watchers, step.now, step.window);
      assert Quiet(d, step.id);
      forall id | id in after.tasks ensures Quiet(after, id) {
        if id != step.id { assert Quiet(d, id) && SameAbout(d.notes, after.notes, id); }
      }
    } else if step.Dismiss? {
      DismissKeepsSound(d, step.note);
      forall id | id in after.tasks ensures Quiet(after, id) { assert Quiet(d, id); }
    } else {
      forall id | id in after.tasks ensures Quiet(after, id) { assert Quiet(d, id); }
    }
  }

  lemma SettleTouchesOne(d: Desk, id: int, people: seq<string>)
    requires id in d.tasks
    ensures Settle(d, id, people).tasks.Keys == d.tasks.Keys
    ensures forall other :: other in d.tasks && other != id ==> Settle(d, id, people).tasks[other] == d.tasks[other]
  {
  }

  lemma SweepTouchesOne(d: Desk, id: int, watchers: seq<string>, now: int, window: int)
    requires id in d.tasks
    ensures SweepOne(d, id, watchers, now, window).tasks.Keys == d.tasks.Keys
    ensures forall other :: other in d.tasks && other != id ==> SweepOne(d, id, watchers, now, window).tasks[other] == d.tasks[other]
  {
  }

  ghost predicate Runs(d: Desk, steps: seq<Step>)
    decreases |steps|
  {
    steps == [] || (Enabled(d, steps[0]) && Runs(Apply(d, steps[0]), steps[1..]))
  }

  ghost function After(d: Desk, steps: seq<Step>): Desk
    requires Runs(d, steps)
    decreases |steps|
  {
    if steps == [] then d else After(Apply(d, steps[0]), steps[1..])
  }

  lemma {:induction false} RunKeepsSound(d: Desk, steps: seq<Step>)
    requires Sound(d) && Runs(d, steps)
    ensures Sound(After(d, steps))
    ensures AllQuiet(d) && (forall i :: 0 <= i < |steps| ==> !steps[i].Behind?) ==> AllQuiet(After(d, steps))
    decreases |steps|
  {
    hide Sound, AllQuiet, Enabled, Apply;
    if steps == [] {
    } else {
      StepKeepsSound(d, steps[0]);
      if AllQuiet(d) && !steps[0].Behind? { StepKeepsQuiet(d, steps[0]); }
      RunKeepsSound(Apply(d, steps[0]), steps[1..]);
    }
  }

  const EMPTY := Desk(map[], [], map[])

  /** Over every run: an unread announcement exists only while the task is marked as announced,
      consecutive hand-over notices of a task go to different people, the stored ones are
      those whose recipient did not create the task, and due-date batches are at most one
      more than reopenings. */
  lemma ToldOnce(steps: seq<Step>, id: int)
    requires Runs(EMPTY, steps) && id in After(EMPTY, steps).tasks
    ensures var d := After(EMPTY, steps);
      && id in d.log
      && (Unread(d.notes, id) > 0 ==> d.tasks[id].told == EVERYBODY)
      && (forall k :: 0 <= k < |d.log[id].handed| - 1 ==> d.log[id].handed[k] != d.log[id].handed[k + 1])
      && "" !in d.log[id].handed
      && To(d.notes, ASSIGNED, id) == Others(d.log[id].handed, d.tasks[id].createdBy)
      && (d.log[id].batches == 0 ==> To(d.notes, DUE, id) == [])
      && d.log[id].batches <= d.log[id].reopened + 1
      && (d.log[id].batches > d.log[id].reopened ==> d.tasks[id].remindedAt.Some?)
  {
    RunKeepsSound(EMPTY, steps);
    assert FineAt(After(EMPTY, steps), id);
  }

  /** And where every write goes through the provider, an unread announcement is only ever of
      an open task that nobody owns. */
  lemma AnnouncementsOnlyOfFreeTasks(steps: seq<Step>, id: int)
    requires Runs(EMPTY, steps) && id in After(EMPTY, steps).tasks
    requires forall i :: 0 <= i < |steps| ==> !steps[i].Behind?
    requires Unread(After(EMPTY, steps).notes, id) > 0
    ensures var t := After(EMPTY, steps).tasks[id]; Open(t) && Owner(t) == "" && t.told == EVERYBODY
  {
    RunKeepsSound(EMPTY, steps);
    assert Quiet(After(EMPTY, steps), id);
  }
}
