/** The message lifecycle across the form, the store and the inbox: what the
    operator sees after a message is created, toggled or deleted, assuming
    the store applies each request as the Store module describes and the
    reload that follows returns its rows. */
module Lifecycle {
  import opened Records
  import opened Filtering
  import opened Store
  import opened Submission
  import opened Inbox

  /** A sent message shows up, unread and with the form's fields, in the
      next list, and the counters move by one unread message. When the store
      gives the new row an id no other row uses, ids stay unique, so the
      toggle and delete lemmas below apply to the list that results. */
  lemma SubmittedMessageIsListed(s: FormState, cfg: Config, now: Timestamp, rows: seq<Message>, id: Id)
    requires CanSubmit(s) && Configured(cfg) && NewestFirst(rows)
    ensures var a := Submit(s, cfg, now, Ok);
      && |a.sent| == 1 && a.sent[0].Create?
      && var after := Insert(rows, Created(a.sent[0].body, id));
      && Message(id, s.data.name, s.data.email, s.data.message, now, false) in after
      && NewestFirst(after)
      && (UniqueIds(rows) && (forall x :: x in rows ==> x.id != id) ==> UniqueIds(after))
      && StatsOf(after).total == StatsOf(rows).total + 1
      && StatsOf(after).unread == StatsOf(rows).unread + 1
      && StatsOf(after).read == StatsOf(rows).read
  {
    var m := Message(id, s.data.name, s.data.email, s.data.message, now, false);
    var after := Insert(rows, m);
    assert m in multiset(after);
    InsertKeepsOrder(rows, m);
    if UniqueIds(rows) && (forall x :: x in rows ==> x.id != id) {
      InsertKeepsUnique(rows, m);
    }
    InsertCount(rows, m, IsUnread);
    InsertCount(rows, m, IsRead);
  }

  /** Toggling a row and reloading shows the same list with that one row's
      flag flipped, still newest first, and moves one message between the
      unread and read counters. */
  lemma ToggleReflectsStore(s: InboxState, rows: seq<Message>, i: nat)
    requires s.messages == rows && UniqueIds(rows) && NewestFirst(rows) && i < |rows|
    ensures var m := rows[i];
      var r := MarkAsRead(s, m.id, m.read, Accepted(Listed(SetRead(rows, m.id, !m.read))));
      && r.state.messages == rows[i := m.(read := !m.read)]
      && NewestFirst(r.state.messages)
      && UniqueIds(r.state.messages)
      && StatsOf(r.state.messages).total == StatsOf(rows).total
      && (m.read ==> (StatsOf(r.state.messages).unread == StatsOf(rows).unread + 1
                   && StatsOf(r.state.messages).read + 1 == StatsOf(rows).read))
      && (!m.read ==> (StatsOf(r.state.messages).unread + 1 == StatsOf(rows).unread
                    && StatsOf(r.state.messages).read == StatsOf(rows).read + 1))
  {
    var m := rows[i];
    SetReadAt(rows, m.id, !m.read, i);
    SetReadKeepsOrder(rows, m.id, !m.read);
    WhereUpdateCount(rows, i, m.(read := !m.read), IsUnread);
    WhereUpdateCount(rows, i, m.(read := !m.read), IsRead);
  }

  /** Confirming a delete and reloading shows the list without exactly that
      row, and its counter goes down by one. */
  lemma RemoveReflectsStore(s: InboxState, rows: seq<Message>, i: nat)
    requires s.messages == rows && UniqueIds(rows) && i < |rows|
    ensures var m := rows[i];
      var r := DeleteMessage(s, m.id, true, Accepted(Listed(Drop(rows, m.id))));
      && r.state.messages == rows[..i] + rows[i + 1..]
      && (forall x :: x in r.state.messages ==> x.id != m.id)
      && StatsOf(r.state.messages).total + 1 == StatsOf(rows).total
      && (m.read ==> (StatsOf(r.state.messages).unread == StatsOf(rows).unread
                   && StatsOf(r.state.messages).read + 1 == StatsOf(rows).read))
      && (!m.read ==> (StatsOf(r.state.messages).unread + 1 == StatsOf(rows).unread
                    && StatsOf(r.state.messages).read == StatsOf(rows).read))
  {
    var m := rows[i];
    DropAt(rows, m.id, i);
    DropRemoves(rows, m.id);
    assert rows == rows[..i] + [m] + rows[i + 1..];
    WhereAppend(rows[..i] + [m], rows[i + 1..], IsUnread);
    WhereAppend(rows[..i], [m], IsUnread);
    WhereAppend(rows[..i], rows[i + 1..], IsUnread);
    WhereAppend(rows[..i] + [m], rows[i + 1..], IsRead);
    WhereAppend(rows[..i], [m], IsRead);
    WhereAppend(rows[..i], rows[i + 1..], IsRead);
  }

  /** A worked run: one message is sent from an empty store, read, then
      deleted; the counters go (1, 1, 0), (1, 0, 1), (0, 0, 0). */
  lemma SendReadDelete(cfg: Config, now: Timestamp, id: Id)
    requires Configured(cfg)
    ensures
      var form := FormState(FormData("Ana", "a@x.com", "Hi"), Cleared, false);
      var a := Submit(form, cfg, now, Ok);
      var rows1 := Insert([], Created(a.sent[0].body, id));
      var s1 := Fetch(Mounted, Listed(rows1)).state;
      var rows2 := SetRead(rows1, id, true);
      var s2 := MarkAsRead(s1, id, false, Accepted(Listed(rows2))).state;
      var s3 := DeleteMessage(s2, id, true, Accepted(Listed(Drop(rows2, id)))).state;
      && s1.messages == [Message(id, "Ana", "a@x.com", "Hi", now, false)]
      && StatsOf(s1.messages) == Stats(1, 1, 0)
      && StatsOf(s2.messages) == Stats(1, 0, 1)
      && s3.messages == []
      && StatsOf(s3.messages) == Stats(0, 0, 0)
  {
    var form := FormState(FormData("Ana", "a@x.com", "Hi"), Cleared, false);
    var m := Message(id, "Ana", "a@x.com", "Hi", now, false);
    assert Submit(form, cfg, now, Ok).sent[0].body == Payload("Ana", "a@x.com", "Hi", now);
    var rows1 := Insert([], m);
    assert rows1 == [m];
    var s1 := Fetch(Mounted, Listed(rows1)).state;
    assert StatsOf([]) == Stats(0, 0, 0);
    SubmittedMessageIsListed(form, cfg, now, [], id);
    ToggleReflectsStore(s1, rows1, 0);
    var rows2 := SetRead(rows1, id, true);
    var s2 := MarkAsRead(s1, id, false, Accepted(Listed(rows2)));
    assert s2.state.messages == rows2;
    RemoveReflectsStore(s2.state, rows2, 0);
  }
}
