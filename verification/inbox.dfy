/** The operator's inbox: the list of messages last loaded from the store,
    the loading flag, the error line and the chosen filter; the derived
    filtered list and counters; and the load, mark and delete commands.
    Each command is one atomic step that takes the store's answers (and the
    operator's confirmation) as inputs and reports the requests it sent. */
module Inbox {
  import opened Records
  import opened Filtering

  datatype Filter = All | Unread | Read

  datatype Stats = Stats(total: nat, unread: nat, read: nat)

  datatype InboxState = InboxState(messages: seq<Message>, loading: bool, error: string, filter: Filter)

  /** How a list request ends: the rows of an ok response, or a failure
      (a non-ok response or an exception; both are handled alike). */
  datatype Listing = Listed(rows: seq<Message>) | ListFailed

  /** How a patch or delete request ends: an ok response, followed by the
      reload it triggers; a non-ok response; or an exception. */
  datatype Reply = Accepted(reload: Listing) | Refused | Threw

  /** The state after a command and the requests it sent, in order. */
  datatype Step = Step(state: InboxState, sent: seq<Request>)

  /** The state the panel is created in, before its first load. */
  const Mounted := InboxState([], true, "", All)

  const LoadErrorText := "Failed to load messages. Please check your credentials."

  // ---------------------------------------------------------------------
  // Derived views

  /** Whether a message passes the filter. */
  predicate Shows(mode: Filter, m: Message) {
    match mode
    case Unread => !m.read
    case Read => m.read
    case All => true
  }

  function Keep(mode: Filter): Message -> bool {
    m => Shows(mode, m)
  }

  /** The list shown under the chosen filter. */
  function FilteredMessages(ms: seq<Message>, mode: Filter): seq<Message> {
    Where(ms, Keep(mode))
  }

  function IsUnread(m: Message): bool { !m.read }

  function IsRead(m: Message): bool { m.read }

  /** The three counters shown above the list. */
  function StatsOf(ms: seq<Message>): (st: Stats)
    ensures st.total == |ms|
    ensures st.unread + st.read == st.total
  {
    WhereComplement(ms, IsUnread, IsRead);
    Stats(|ms|, |Where(ms, IsUnread)|, |Where(ms, IsRead)|)
  }

  /** The `all` filter shows the list unchanged. */
  lemma FilterAllIsIdentity(ms: seq<Message>)
    ensures FilteredMessages(ms, All) == ms
  {
    WhereKeepsAll(ms, Keep(All));
  }

  /** `unread` shows exactly the unread messages and `read` exactly the read
      ones, and between them every message appears exactly once. */
  lemma FilterPartition(ms: seq<Message>)
    ensures forall m :: m in FilteredMessages(ms, Unread) <==> m in ms && !m.read
    ensures forall m :: m in FilteredMessages(ms, Read) <==> m in ms && m.read
    ensures multiset(FilteredMessages(ms, Unread)) + multiset(FilteredMessages(ms, Read)) == multiset(ms)
  {
    WhereMembers(ms, Keep(Unread));
    WhereMembers(ms, Keep(Read));
    WhereComplement(ms, Keep(Unread), Keep(Read));
  }

  /** Every filter shows the order-preserving subsequence of the list made of
      exactly the messages that pass it. */
  lemma FilterIsSelection(ms: seq<Message>, mode: Filter)
    ensures IsSelection(FilteredMessages(ms, mode), ms, Keep(mode))
  {
    WhereIsSelection(ms, Keep(mode));
  }

  /** The length of each filtered list is the counter shown on its button. */
  lemma FilterCountsMatchStats(ms: seq<Message>)
    ensures |FilteredMessages(ms, All)| == StatsOf(ms).total
    ensures |FilteredMessages(ms, Unread)| == StatsOf(ms).unread
    ensures |FilteredMessages(ms, Read)| == StatsOf(ms).read
  {
    FilterAllIsIdentity(ms);
    WhereCongruent(ms, Keep(Unread), IsUnread);
    WhereCongruent(ms, Keep(Read), IsRead);
  }

  /** A newest-first list stays newest first under every filter. */
  lemma FilterKeepsOrder(ms: seq<Message>, mode: Filter)
    requires NewestFirst(ms)
    ensures NewestFirst(FilteredMessages(ms, mode))
  {
    WhereSelects(ms, Keep(mode));
  }

  // ---------------------------------------------------------------------
  // Commands

  /** Loading the list: the flag is raised and the error cleared, one list
      request is sent, and its answer decides the rest. */
  function Fetch(s: InboxState, outcome: Listing): (r: Step)
    ensures r.sent == [List]
    // the flag is lowered whichever way the request ends
    ensures !r.state.loading
    ensures r.state.filter == s.filter
    // a good answer replaces the list wholesale and leaves no error
    ensures outcome.Listed? ==> r.state.messages == outcome.rows && r.state.error == ""
    // a failure keeps the old list and shows the load error
    ensures outcome.ListFailed? ==> r.state.messages == s.messages && r.state.error == LoadErrorText
  {
    var pending := s.(loading := true, error := "");
    match outcome
    case Listed(rows) => Step(pending.(messages := rows, loading := false), [List])
    case ListFailed => Step(pending.(error := LoadErrorText, loading := false), [List])
  }

  /** The refresh button: disabled while a load is in progress, otherwise a
      full load. */
  function Refresh(s: InboxState, outcome: Listing): (r: Step)
    ensures s.loading ==> r == Step(s, [])
    ensures !s.loading ==> r == Fetch(s, outcome)
  {
    if s.loading then Step(s, []) else Fetch(s, outcome)
  }

  /** Toggling a message's read flag: one patch whose only field is the
      negation of the flag the row showed, then a reload only if the store
      answered ok. Otherwise the state is untouched. */
  function MarkAsRead(s: InboxState, id: Id, current: bool, reply: Reply): (r: Step)
    ensures |r.sent| >= 1 && r.sent[0] == Patch(id, !current)
    ensures reply.Accepted? ==> r.sent == [Patch(id, !current), List] && r.state == Fetch(s, reply.reload).state
    ensures !reply.Accepted? ==> r.sent == [Patch(id, !current)] && r.state == s
  {
    var patch := Patch(id, !current);
    match reply
    case Accepted(reload) =>
      var after := Fetch(s, reload);
      Step(after.state, [patch] + after.sent)
    case _ => Step(s, [patch])
  }

  /** Deleting a message: nothing at all unless the operator confirms; then
      one delete request, and a reload only if the store answered ok.
      Otherwise the state is untouched. */
  function DeleteMessage(s: InboxState, id: Id, confirmed: bool, reply: Reply): (r: Step)
    ensures !confirmed ==> r == Step(s, [])
    ensures confirmed ==> |r.sent| >= 1 && r.sent[0] == Delete(id)
    ensures confirmed && reply.Accepted? ==> r.sent == [Delete(id), List] && r.state == Fetch(s, reply.reload).state
    ensures confirmed && !reply.Accepted? ==> r.sent == [Delete(id)] && r.state == s
  {
    if !confirmed then Step(s, [])
    else
      match reply
      case Accepted(reload) =>
        var after := Fetch(s, reload);
        Step(after.state, [Delete(id)] + after.sent)
      case _ => Step(s, [Delete(id)])
  }

  /** The list on screen only ever holds what some list request returned:
      every command either keeps it or replaces it with a reload's rows. */
  lemma CommandsNeverPatchLocally(s: InboxState, id: Id, current: bool, confirmed: bool, reply: Reply)
    ensures var r := MarkAsRead(s, id, current, reply);
      r.state.messages == s.messages || (reply.Accepted? && reply.reload.Listed? && r.state.messages == reply.reload.rows)
    ensures var r := DeleteMessage(s, id, confirmed, reply);
      r.state.messages == s.messages || (reply.Accepted? && reply.reload.Listed? && r.state.messages == reply.reload.rows)
  {
  }
}
