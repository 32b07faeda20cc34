/** The work queue for people, and who is told about it: announcements of tasks nobody owns,
    hand-overs, and due dates. */
module Tasks {
  import opened Values

  /** `told` is who was last told the task is theirs, or the mark of an announcement. */
  datatype Task = Task(state: string, assignee: string, told: string, createdBy: string,
                       dueAt: Option<int>, remindedAt: Option<int>)

  datatype Kind = ANNOUNCED | ASSIGNED | DUE

  /** A stored notification: what it says, about which task, to whom, and whether it was read. */
  datatype Note = Note(kind: Kind, task: int, recipient: string, read: bool)

  /** What was said about a task so far: whom it was handed to, in order, how many due-date
      batches went out, and how often it was reopened. */
  datatype History = History(handed: seq<string>, batches: nat, reopened: nat)

  datatype Desk = Desk(tasks: map<int, Task>, notes: seq<Note>, log: map<int, History>)

  const EVERYBODY := "*"
  const OPEN_STATES := {"open", "doing", "blocked"}
  const WITHDRAW_LIMIT := 500

  // ----- reading a task -----

  function StripLeft(s: string): string {
    if s != "" && IsSpace(s[0]) then StripLeft(s[1..]) else s
  }

  function StripRight(s: string): string {
    if s != "" && IsSpace(s[|s| - 1]) then StripRight(s[..|s| - 1]) else s
  }

  function Strip(s: string): string {
    StripRight(StripLeft(s))
  }

  lemma {:induction false} StrippedEnds(s: string)
    ensures StripLeft(s) != "" ==> !IsSpace(StripLeft(s)[0])
    ensures StripRight(s) != "" ==> !IsSpace(StripRight(s)[|StripRight(s)| - 1])
    ensures StripRight(s) <= s
  {
    if s != "" && IsSpace(s[0]) { StrippedEnds(s[1..]); }
    if s != "" && IsSpace(s[|s| - 1]) { StrippedEnds(s[..|s| - 1]); }
  }

  /** Trimming takes the blanks off both ends and nothing else. */
  lemma StripMeans(s: string) returns (before: string, after: string)
    ensures s == before + Strip(s) + after
    ensures (forall k :: 0 <= k < |before| ==> IsSpace(before[k])) && (forall k :: 0 <= k < |after| ==> IsSpace(after[k]))
    ensures Strip(s) != "" ==> !IsSpace(Strip(s)[0]) && !IsSpace(Strip(s)[|Strip(s)| - 1])
  {
    var left := StripLeft(s);
    before := LeftBlanks(s);
    after := RightBlanks(left);
    StrippedEnds(s);
    StrippedEnds(left);
    assert before + left == before + Strip(s) + after;
    if Strip(s) != "" { assert Strip(s)[0] == left[0]; }
  }

  lemma {:induction false} LeftBlanks(s: string) returns (before: string)
    ensures s == before + StripLeft(s) && forall k :: 0 <= k < |before| ==> IsSpace(before[k])
  {
    before := "";
    if s != "" && IsSpace(s[0]) {
      var rest := LeftBlanks(s[1..]);
      before := [s[0]] + rest;
    }
  }

  lemma {:induction false} RightBlanks(s: string) returns (after: string)
    ensures s == StripRight(s) + after && forall k :: 0 <= k < |after| ==> IsSpace(after[k])
  {
    after := "";
    if s != "" && IsSpace(s[|s| - 1]) {
      var rest := RightBlanks(s[..|s| - 1]);
      after := rest + [s[|s| - 1]];
    }
  }

  lemma StripTwice(s: string)
    ensures Strip(Strip(s)) == Strip(s)
  {
    StrippedEnds(s);
    StrippedEnds(StripLeft(s));
    var t := Strip(s);
    assert t != "" ==> t[0] == StripLeft(s)[0];
  }

  function Owner(t: Task): string { Strip(t.assignee) }

  predicate Open(t: Task) { t.state in OPEN_STATES }

  /** "This is yours now", when the assignee is not who was last told. */
  function Handover(t: Task): Option<string> {
    if Owner(t) == "" || Owner(t) == Strip(t.told) then None else Some(Owner(t))
  }

  /** "There is new work and nobody is on it", to everybody who could take it. */
  function Announcement(t: Task, watchers: seq<string>): seq<string> {
    if Owner(t) != "" || Strip(t.told) != "" then [] else watchers
  }

  predicate DueSoon(t: Task, now: int, window: int) {
    t.dueAt.Some? && t.remindedAt.None? && t.dueAt.value <= now + window
  }

  function Reminder(t: Task, now: int, window: int): Option<string> {
    if DueSoon(t, now, window) && Owner(t) != "" then Some(Owner(t)) else None
  }

  function UnassignedAlert(t: Task, watchers: seq<string>, now: int, window: int): seq<string> {
    if Owner(t) == "" && DueSoon(t, now, window) then watchers else []
  }

  // ----- sending and withdrawing -----

  /** What storing one notification per recipient adds: nothing for an empty address, and
      nothing that would tell somebody of their own doing. */
  function Sent(kind: Kind, id: int, actor: string, recipients: seq<string>): seq<Note> {
    if recipients == [] then []
    else
      var r := recipients[0];
      if r == "" || (actor != "" && actor == r) then Sent(kind, id, actor, recipients[1..])
      else [Note(kind, id, r, false)] + Sent(kind, id, actor, recipients[1..])
  }

  predicate Withdrawable(n: Note, id: int) {
    n.kind == ANNOUNCED && n.task == id && !n.read
  }

  /** A task's unread announcements are marked read, as many as one page holds. */
  function Withdrawn(notes: seq<Note>, id: int, page: nat): (r: seq<Note>)
    ensures |r| == |notes|
  {
    if notes == [] then []
    else if page > 0 && Withdrawable(notes[0], id) then [notes[0].(read := true)] + Withdrawn(notes[1..], id, page - 1)
    else [notes[0]] + Withdrawn(notes[1..], id, page)
  }

  lemma WithdrawnStep(notes: seq<Note>, i: nat, id: int, page: nat)
    requires i < |notes|
    ensures var marked := page > 0 && Withdrawable(notes[i], id);
            var after := if marked then notes[i := notes[i].(read := true)] else notes;
            && after[i + 1..] == notes[i..][1..]
            && after[..i + 1] + Withdrawn(after[i + 1..], id, if marked then page - 1 else page)
               == notes[..i] + Withdrawn(notes[i..], id, page)
  {
    var marked := page > 0 && Withdrawable(notes[i], id);
    var after := if marked then notes[i := notes[i].(read := true)] else notes;
    assert after[..i + 1] == notes[..i] + [after[i]] && after[i + 1..] == notes[i..][1..];
  }

  // ----- settling a task after a write -----

  function Tell(d: Desk, id: int, told: string): Desk
    requires id in d.tasks
  {
    d.(tasks := d.tasks[id := d.tasks[id].(told := told)])
  }

  function Withdraw(d: Desk, id: int): Desk {
    d.(notes := Withdrawn(d.notes, id, WITHDRAW_LIMIT))
  }

  function HistoryOf(d: Desk, id: int): History {
    if id in d.log then d.log[id] else History([], 0, 0)
  }

  /** Raising a hand-over notice, and writing down who was told. */
  function HandTo(d: Desk, id: int, who: string): Desk
    requires id in d.tasks
  {
    var h := HistoryOf(d, id);
    Tell(d.(notes := d.notes + Sent(ASSIGNED, id, d.tasks[id].createdBy, [who]),
            log := d.log[id := h.(handed := h.handed + [who])]), id, who)
  }

  /** What the announcing provider does after a write, from the task's state alone. */
  function Settle(d: Desk, id: int, people: seq<string>): Desk
    requires id in d.tasks
  {
    var t := d.tasks[id];
    var told := Strip(t.told);
    if !Open(t) then (if told == EVERYBODY then Withdraw(d, id) else d)
    else if Owner(t) != "" then
      if Owner(t) == told then d
      else HandTo(if told == EVERYBODY then Withdraw(d, id) else d, id, Owner(t))
    else if told != "" || people == [] then d
    else Tell(d.(notes := d.notes + Sent(ANNOUNCED, id, t.createdBy, Announcement(t, people))), id, EVERYBODY)
  }

  // ----- the sweep -----

  function Remind(d: Desk, id: int, recipients: seq<string>, now: int): Desk
    requires id in d.tasks
  {
    var h := HistoryOf(d, id);
    d.(notes := d.notes + Sent(DUE, id, "", recipients),
       tasks := d.tasks[id := d.tasks[id].(remindedAt := Some(now))],
       log := d.log[id := h.(batches := h.batches + 1)])
  }

  function SweepHandover(d: Desk, id: int): Desk
    requires id in d.tasks
  {
    var t := d.tasks[id];
    if Handover(t).None? then d
    else HandTo(if t.told == EVERYBODY then Withdraw(d, id) else d, id, Handover(t).value)
  }

  /** One open task's turn in a sweep. */
  function SweepOne(d: Desk, id: int, watchers: seq<string>, now: int, window: int): Desk
    requires id in d.tasks
  {
    var t, after := d.tasks[id], SweepHandover(d, id);
    if Reminder(t, now, window).Some? then Remind(after, id, [Reminder(t, now, window).value], now)
    else if UnassignedAlert(t, watchers, now, window) != [] then
      Remind(after, id, UnassignedAlert(t, watchers, now, window), now)
    else after
  }

  function SweepAll(d: Desk, ids: seq<int>, watchers: seq<string>, now: int, window: int): Desk
    requires forall i :: 0 <= i < |ids| ==> ids[i] in d.tasks
    decreases |ids|
  {
    if ids == [] then d else SweepAll(SweepOne(d, ids[0], watchers, now, window), ids[1..], watchers, now, window)
  }

  /** The tables behind it, changed row by row. */
  class Office {
    var tasks: map<int, Task>
    var notes: seq<Note>
    ghost var log: map<int, History>

    ghost function Now(): Desk
      reads this
    {
      Desk(tasks, notes, log)
    }

    constructor ()
      ensures Now() == Desk(map[], [], map[])
    {
      tasks, notes, log := map[], [], map[];
    }

    method Send(kind: Kind, id: int, actor: string, recipient: string)
      modifies `notes
      ensures notes == old(notes) + Sent(kind, id, actor, [recipient])
    {
      assert [recipient][1..] == [];
      if recipient != "" && !(actor != "" && actor == recipient) {
        notes := notes + [Note(kind, id, recipient, false)];
      }
    }

    method SendEach(kind: Kind, id: int, actor: string, recipients: seq<string>)
      modifies `notes
      ensures notes == old(notes) + Sent(kind, id, actor, recipients)
    {
      assert recipients[0..] == recipients;
      for i := 0 to |recipients|
        invariant notes + Sent(kind, id, actor, recipients[i..]) == old(notes) + Sent(kind, id, actor, recipients)
      {
        ghost var before := notes;
        var r := recipients[i];
        assert recipients[i..][1..] == recipients[i + 1..] && [r][1..] == [];
        Send(kind, id, actor, r);
        assert notes + Sent(kind, id, actor, recipients[i + 1..]) == before + Sent(kind, id, actor, recipients[i..]);
      }
    }

    method WithdrawAnnouncement(id: int)
      modifies `notes
      ensures notes == Withdrawn(old(notes), id, WITHDRAW_LIMIT)
    {
      var page := WITHDRAW_LIMIT;
      assert notes[0..] == notes && [] + Withdrawn(notes, id, page) == Withdrawn(notes, id, page);
      for i := 0 to |notes|
        invariant |notes| == |old(notes)| && 0 <= page && notes[i..] == old(notes)[i..]
        invariant notes[..i] + Withdrawn(notes[i..], id, page) == Withdrawn(old(notes), id, WITHDRAW_LIMIT)
      {
        WithdrawnStep(notes, i, id, page);
        if page > 0 && Withdrawable(notes[i], id) {
          notes := notes[i := notes[i].(read := true)];
          page := page - 1;
        }
      }
      assert notes[..|notes|] == notes && Withdrawn([], id, page) == [];
    }

    /** Raises the hand-over notice and writes down who was told. */
    method HandOverTo(id: int, who: string)
      requires id in tasks
      modifies this
      ensures Now() == HandTo(old(Now()), id, who)
    {
      Send(ASSIGNED, id, tasks[id].createdBy, who);
      log := log[id := HistoryOf(Now(), id).(handed := HistoryOf(Now(), id).handed + [who])];
      tasks := tasks[id := tasks[id].(told := who)];
    }

    /** Runs after every create, and every update of the assignee or the state. */
    method Announce(id: int, people: seq<string>)
      requires id in tasks
      modifies this
      ensures Now() == Settle(old(Now()), id, people)
    {
      var t := tasks[id];
      var told := Strip(t.told);
      if !Open(t) {
        if told == EVERYBODY { WithdrawAnnouncement(id); }
        return;
      }
      if Owner(t) != "" {
        if Owner(t) == told {
          return;
        }
        if told == EVERYBODY { WithdrawAnnouncement(id); }
        HandOverTo(id, Owner(t));
        return;
      }
      if told != "" || people == [] {
        return;
      }
      SendEach(ANNOUNCED, id, t.createdBy, Announcement(t, people));
      tasks := tasks[id := tasks[id].(told := EVERYBODY)];
    }

    method SendDue(id: int, recipients: seq<string>, now: int)
      requires id in tasks
      modifies this
      ensures Now() == Remind(old(Now()), id, recipients, now)
    {
      SendEach(DUE, id, "", recipients);
      log := log[id := HistoryOf(Now(), id).(batches := HistoryOf(Now(), id).batches + 1)];
      tasks := tasks[id := tasks[id].(remindedAt := Some(now))];
    }

    /** Goes through the open tasks it read. */
    method Sweep(ids: seq<int>, watchers: seq<string>, now: int, window: int)
      requires forall i :: 0 <= i < |ids| ==> ids[i] in tasks
      modifies this
      ensures Now() == SweepAll(old(Now()), ids, watchers, now, window)
    {
      hide SweepHandover, HandTo, Remind;
      assert ids[0..] == ids;
      for i := 0 to |ids|
        invariant tasks.Keys == old(tasks).Keys
        invariant SweepAll(Now(), ids[i..], watchers, now, window) == SweepAll(old(Now()), ids, watchers, now, window)
      {
        assert ids[i..][0] == ids[i] && ids[i..][1..] == ids[i + 1..];
        SweepTask(ids[i], watchers, now, window);
      }
    }

    method SweepTask(id: int, watchers: seq<string>, now: int, window: int)
      requires id in tasks
      modifies this
      ensures Now() == SweepOne(old(Now()), id, watchers, now, window) && tasks.Keys == old(tasks).Keys
    {
      var t := tasks[id];
      var note := Handover(t);
      if note.Some? {
        if t.told == EVERYBODY { WithdrawAnnouncement(id); }
        HandOverTo(id, note.value);
      }
      var due := Reminder(t, now, window);
      if due.Some? {
        SendDue(id, [due.value], now);
        return;
      }
      var alerts := UnassignedAlert(t, watchers, now, window);
      if alerts != [] {
        SendDue(id, alerts, now);
      }
    }
  }
}
