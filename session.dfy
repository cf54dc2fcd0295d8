/** The inbox controller as a pure transition system: the controller state, the
    events it receives, the commands it hands back to the runtime, and `Next`,
    which gives the new state and the commands for one event.  The class in
    module Controller carries out the same transitions in place. */
module Session {
  import opened Bytes
  import opened Mail
  import opened Render

  datatype Option<T> = None | Some(value: T)

  datatype View = ListView | DetailView | HelpView | ConfirmView

  /** The pending confirmation (`confirmAction`). */
  datatype Action = NoAction | QuitAction | DeleteSingleAction | DeleteBulkAction

  /** The description the confirmation dialog shows (`confirmData`). */
  datatype Prompt = NoPrompt | QuitPrompt | DeleteSinglePrompt(subject: bytes) | DeleteBulkPrompt(count: nat)

  /** The status line, one constructor per message the controller formats. */
  datatype Status =
    | NoStatus
    | Refreshing
    | AutoRefreshStatus(on: bool)
    | SortedStatus(mode: SortMode)
    | EmailCopied
    | MessageCopied
    | BulkModeStatus(on: bool)
    | DeletingOne
    | DeletingMany(count: nat)
    | MessageDeleted
    | MessagesDeleted(count: nat)
    | RetryStatus(attempt: nat, error: bytes)
    | GaveUp(error: bytes)
    | Downloading(filename: bytes)
    | DownloadingAll(count: nat)

  /** What the controller receives: a terminal resize, the completion of an
      asynchronous command, a timer tick or a key press (by its key name). */
  datatype Event =
    | Resize(width: int, height: int)
    | MessagesLoaded(messages: seq<Message>)
    | DetailLoaded(detail: MessageDetail)
    | Deleted
    | BulkDeleted
    | Err(error: bytes)
    | Tick
    | Key(key: string)

  /** The commands handed back to the runtime; an empty list is no command. */
  datatype Command =
    | LoadMessages
    | LoadDetail(id: MessageId)
    | Delete(id: MessageId)
    | BulkDelete(ids: seq<MessageId>)
    | TickCmd
    | Quit

  /** Seconds a cached message list stays usable at start-up. */
  const CacheExpiry: int := 300
  /** Seconds between automatic refreshes. */
  const AutoRefreshInterval: int := 10
  /** Characters the search box accepts. */
  const SearchCharLimit: nat := 100
  const MaxRetries: nat := 3

  datatype State = State(
    view: View,
    previousView: View,
    messages: seq<Message>,
    filtered: seq<Message>,
    /** the filtered list is the message list itself, not a copy */
    filterAliases: bool,
    details: map<MessageId, MessageDetail>,
    selectedMsg: Option<MessageDetail>,
    width: int,
    height: int,
    loading: bool,
    err: Option<bytes>,
    retryCount: nat,
    searchMode: bool,
    status: Status,
    autoRefresh: bool,
    sortBy: SortMode,
    selected: set<nat>,
    bulkMode: bool,
    confirmAction: Action,
    confirmData: Prompt,
    query: bytes,
    cursor: nat,
    columns: seq<Column>,
    rows: seq<Row>,
    tableHeight: int,
    viewportWidth: int,
    viewportHeight: int,
    searchWidth: int)

  datatype Step = Step(state: State, cmds: seq<Command>)

  // ------------------------------------------------------------ start-up

  datatype Snapshot = Snapshot(messages: seq<Message>, timestamp: int)

  /** A cached list is used only while it is younger than the expiry. */
  predicate Fresh(cache: Option<Snapshot>, now: int) {
    cache.Some? && now - cache.value.timestamp < CacheExpiry
  }

  function Seed(cache: Option<Snapshot>, now: int): seq<Message> {
    if Fresh(cache, now) then cache.value.messages else []
  }

  /** The state before the first event, given the cache read at start-up. */
  function Initial(cache: Option<Snapshot>, now: int): State {
    var msgs := Seed(cache, now);
    State(ListView, ListView, msgs, msgs, true, map[], None, 0, 0, |msgs| == 0, None, 0,
          false, NoStatus, true, ByDate, {}, false, NoAction, NoPrompt, [], 0,
          InitialColumns(), [], 10, 100, 20, 0)
  }

  /** The commands issued at start-up: a load and the first tick. */
  function InitialCommands(): seq<Command> {
    [LoadMessages, TickCmd]
  }

  /** A fresh cache seeds the list and the spinner is skipped, unless the cached
      list is empty; a stale or missing cache leaves the list empty and loading. */
  lemma InitialSpec(cache: Option<Snapshot>, now: int)
    ensures Fresh(cache, now) ==> Initial(cache, now).messages == cache.value.messages
    ensures !Fresh(cache, now) ==> Initial(cache, now).messages == [] && Initial(cache, now).loading
    ensures Initial(cache, now).loading <==> (!Fresh(cache, now) || cache.value.messages == [])
    ensures Initial(cache, now).filtered == Initial(cache, now).messages
  {
  }

  /** A cache written six minutes ago is ignored; one written four minutes ago is used. */
  lemma CacheAgeScenario(msgs: seq<Message>, now: int)
    requires msgs != []
    ensures Initial(Some(Snapshot(msgs, now - 360)), now).messages == []
    ensures Initial(Some(Snapshot(msgs, now - 360)), now).loading
    ensures Initial(Some(Snapshot(msgs, now - 240)), now).messages == msgs
    ensures !Initial(Some(Snapshot(msgs, now - 240)), now).loading
  {
  }

  // ------------------------------------------------------ list recomputation

  /** `filterMessages`: an empty query makes the filtered list the message list. */
  function Refilter(s: State): State {
    if s.query == [] then s.(filtered := s.messages, filterAliases := true)
    else s.(filtered := Filtered(s.messages, s.query), filterAliases := false)
  }

  /** `sortMessages`: sorting the filtered list also reorders the message list
      when the two are the same list. */
  function Resort(s: State): State {
    var f := SortBy(s.sortBy, s.filtered);
    s.(filtered := f, messages := if s.filterAliases then f else s.messages)
  }

  /** `updateTableRows`. */
  function Rerow(s: State): State {
    s.(rows := Rows(s.filtered, s.selected, s.columns))
  }

  function Rederive(s: State): State {
    Rerow(Resort(Refilter(s)))
  }

  /** After recomputation the filtered list is the sorted filter of the messages. */
  lemma RederiveSpec(s: State)
    ensures multiset(Rederive(s).filtered) == multiset(Filtered(s.messages, s.query))
    ensures Sorted(s.sortBy, Rederive(s).filtered)
  {
  }

  /** With an empty query the message list itself is the sorted list, otherwise it
      keeps its order; the rows describe the filtered list. */
  lemma RederiveLists(s: State)
    ensures s.query == [] ==> Rederive(s).messages == Rederive(s).filtered && Rederive(s).filterAliases
    ensures s.query != [] ==> Rederive(s).messages == s.messages && !Rederive(s).filterAliases
    ensures Rederive(s).rows == Rows(Rederive(s).filtered, s.selected, s.columns)
  {
  }

  /** Recomputation touches only the two lists, the aliasing flag and the rows. */
  lemma RederiveFrame(s: State)
    ensures var t := Rederive(s);
      t == s.(filtered := t.filtered, messages := t.messages, filterAliases := t.filterAliases, rows := t.rows)
  {
  }

  // -------------------------------------------------------- message edits

  /** The position of the first message with the id, or the length when none has it. */
  function IndexOf(msgs: seq<Message>, id: MessageId): (i: nat)
    ensures i <= |msgs|
    ensures i < |msgs| ==> msgs[i].id == id
    ensures forall j | 0 <= j < i :: msgs[j].id != id
  {
    if msgs == [] then 0
    else if msgs[0].id == id then 0
    else 1 + IndexOf(msgs[1..], id)
  }

  /** `updateMessageSeen`'s edit: the first message with the id gets the flag. */
  function SetSeen(msgs: seq<Message>, id: MessageId, seen: bool): seq<Message> {
    if msgs == [] then []
    else if msgs[0].id == id then [msgs[0].(seen := seen)] + msgs[1..]
    else [msgs[0]] + SetSeen(msgs[1..], id, seen)
  }

  lemma {:induction false} SetSeenSpec(msgs: seq<Message>, id: MessageId, seen: bool)
    ensures |SetSeen(msgs, id, seen)| == |msgs|
    ensures forall j | 0 <= j < |msgs| ::
      SetSeen(msgs, id, seen)[j] == if j == IndexOf(msgs, id) then msgs[j].(seen := seen) else msgs[j]
    decreases |msgs|
  {
    if msgs != [] && msgs[0].id != id {
      SetSeenSpec(msgs[1..], id, seen);
    }
  }

  /** The single-delete edit: the first message with the id is dropped. */
  function RemoveFirst(msgs: seq<Message>, id: MessageId): seq<Message> {
    if msgs == [] then []
    else if msgs[0].id == id then msgs[1..]
    else [msgs[0]] + RemoveFirst(msgs[1..], id)
  }

  lemma {:induction false} RemoveFirstSpec(msgs: seq<Message>, id: MessageId)
    ensures var i := IndexOf(msgs, id);
      RemoveFirst(msgs, id) == if i < |msgs| then msgs[..i] + msgs[i + 1..] else msgs
    decreases |msgs|
  {
    if msgs != [] && msgs[0].id != id {
      RemoveFirstSpec(msgs[1..], id);
      var i := IndexOf(msgs[1..], id);
      if i < |msgs[1..]| {
        assert msgs[..i + 1] == [msgs[0]] + msgs[1..][..i];
        assert msgs[i + 2..] == msgs[1..][i + 1..];
      } else {
        assert msgs == [msgs[0]] + msgs[1..];
      }
    }
  }

  /** The bulk-delete edit: every message whose id is in the set is dropped. */
  function WithoutIds(msgs: seq<Message>, ids: set<MessageId>): seq<Message> {
    Keep(msgs, (m: Message) => m.id !in ids)
  }

  /** Dropping from a prefix one message longer keeps that message unless its id is listed. */
  lemma WithoutIdsSnoc(msgs: seq<Message>, i: nat, ids: set<MessageId>)
    requires i < |msgs|
    ensures WithoutIds(msgs[..i + 1], ids) == WithoutIds(msgs[..i], ids) + (if msgs[i].id !in ids then [msgs[i]] else [])
  {
    assert msgs[..i + 1][..i] == msgs[..i];
  }

  /** The ids of the in-range selected indices of the filtered list. */
  function SelectedIdSet(selected: set<nat>, filtered: seq<Message>): set<MessageId> {
    set i | i in selected && i < |filtered| :: filtered[i].id
  }

  /** One more index contributes its message's id when it is in range. */
  lemma SelectedIdSetAdd(done: set<nat>, idx: nat, filtered: seq<Message>)
    ensures SelectedIdSet(done + {idx}, filtered) ==
      SelectedIdSet(done, filtered) + (if idx < |filtered| then {filtered[idx].id} else {})
  {
  }

  /** The ids of the in-range selected indices, in index order. */
  function SelectedIds(selected: set<nat>, filtered: seq<Message>, n: nat): seq<MessageId>
    requires n <= |filtered|
  {
    if n == 0 then []
    else SelectedIds(selected, filtered, n - 1) + (if n - 1 in selected then [filtered[n - 1].id] else [])
  }

  lemma {:induction false} SelectedIdsSpec(selected: set<nat>, filtered: seq<Message>, n: nat)
    requires n <= |filtered|
    ensures forall id :: id in SelectedIds(selected, filtered, n) <==>
      exists i | 0 <= i < n :: i in selected && filtered[i].id == id
    ensures |SelectedIds(selected, filtered, n)| == |set i | i in selected && i < n|
    decreases n
  {
    if n > 0 {
      SelectedIdsSpec(selected, filtered, n - 1);
      var below := set i | i in selected && i < n - 1;
      var upto := set i | i in selected && i < n;
      if n - 1 in selected {
        assert upto == below + {n - 1};
      } else {
        assert upto == below;
      }
    }
  }

  // ------------------------------------------------------------- events

  function OnResize(s: State, w: int, h: int): State {
    var available := MaxInt(h - 10, 5);
    var cols := ColumnsFor(w);
    s.(width := w, height := h, tableHeight := available, viewportWidth := w - 4,
       viewportHeight := available, searchWidth := MaxInt(w - 20, 20),
       columns := cols, rows := Rows(s.filtered, s.selected, cols))
  }

  function OnMessagesLoaded(s: State, msgs: seq<Message>): State {
    Rederive(s.(messages := msgs, loading := false, retryCount := 0))
  }

  function OnDetailLoaded(s: State, d: MessageDetail): State {
    var s1 := s.(selectedMsg := Some(d), details := s.details[d.Id() := d], view := DetailView, loading := false);
    Rederive(s1.(messages := SetSeen(s1.messages, d.Id(), true)))
  }

  /** `messageDeletedMsg` exactly as the source handles it. */
  function OnDeletedAsWritten(s: State): State {
    var s1 := s.(status := MessageDeleted, view := ListView);
    if s.selectedMsg.None? then s1
    else Rederive(s1.(selectedMsg := None, messages := RemoveFirst(s.messages, s.selectedMsg.value.Id())))
  }

  /** `messageDeletedMsg` with the loading flag cleared, as evidently intended
      (see Findings); `Next` keeps the completion as written. */
  function OnDeleted(s: State): State {
    OnDeletedAsWritten(s).(loading := false)
  }

  /** `bulkDeletedMsg` exactly as the source handles it. */
  function OnBulkDeletedAsWritten(s: State): State {
    var ids := SelectedIdSet(s.selected, s.filtered);
    Rederive(s.(status := MessagesDeleted(|s.selected|), messages := WithoutIds(s.messages, ids),
                selected := {}, bulkMode := false))
  }

  /** `bulkDeletedMsg` with the loading flag cleared, as evidently intended
      (see Findings); `Next` keeps the completion as written. */
  function OnBulkDeleted(s: State): State {
    OnBulkDeletedAsWritten(s).(loading := false)
  }

  /** The capacity the source reserves for the surviving messages: the list
      length less the number of selected indices, in range or not. `make`
      panics when it is negative (see Findings). */
  function BulkDeleteCapacity(s: State): int {
    |s.messages| - |s.selected|
  }

  /** The capacity the survivors evidently need: the number of messages the
      completion keeps, which is never negative. */
  function SurvivorCapacity(s: State): nat {
    |WithoutIds(s.messages, SelectedIdSet(s.selected, s.filtered))|
  }

  predicate RefreshDue(s: State) {
    s.autoRefresh && s.view == ListView && !s.loading
  }

  function OnTick(s: State): seq<Command> {
    if RefreshDue(s) then [LoadMessages, TickCmd] else [TickCmd]
  }

  function OnErr(s: State, e: bytes): Step {
    var n := s.retryCount + 1;
    var s1 := s.(loading := false, retryCount := n);
    if n < MaxRetries then Step(s1.(status := RetryStatus(n, e)), [LoadMessages])
    else Step(s1.(err := Some(e), status := GaveUp(e)), [])
  }

  // --------------------------------------------------------------- keys

  function ShowConfirm(s: State, action: Action, prompt: Prompt): State {
    s.(previousView := s.view, view := ConfirmView, confirmAction := action, confirmData := prompt)
  }

  function ExecuteConfirmed(s: State): Step {
    var s1 := s.(view := s.previousView, confirmAction := NoAction);
    match s.confirmAction
    case QuitAction => Step(s1, [Quit])
    case DeleteSingleAction =>
      if s.selectedMsg.Some? then Step(s1.(loading := true, status := DeletingOne), [Delete(s.selectedMsg.value.Id())])
      else Step(s1, [])
    case DeleteBulkAction =>
      var ids := SelectedIds(s.selected, s.filtered, |s.filtered|);
      Step(s1.(loading := true, status := DeletingMany(|ids|)), [BulkDelete(ids)])
    case NoAction => Step(s1, [])
  }

  /** A key press as the controller distinguishes it: a single character, one of
      the named keys it reacts to, or any other key. */
  datatype KeyName = Rune(c: char) | Esc | Enter | CtrlC | Down | Up | Backspace | OtherKey

  /** The key name the terminal runtime reports, e.g. "j", " ", "esc", "ctrl+c". */
  function ParseKey(k: string): KeyName {
    if |k| == 1 then Rune(k[0])
    else if k == "esc" then Esc
    else if k == "enter" then Enter
    else if k == "ctrl+c" then CtrlC
    else if k == "down" then Down
    else if k == "up" then Up
    else if k == "backspace" then Backspace
    else OtherKey
  }

  predicate IsAccept(k: KeyName) {
    k == Rune('y') || k == Rune('Y')
  }

  predicate IsDecline(k: KeyName) {
    k == Rune('n') || k == Rune('N') || k == Esc || k == Rune('q')
  }

  function OnConfirmKey(s: State, k: KeyName): Step {
    if IsAccept(k) then ExecuteConfirmed(s)
    else if IsDecline(k) then Step(s.(view := s.previousView, confirmAction := NoAction, confirmData := NoPrompt), [])
    else Step(s, [])
  }

  function OnHelpKey(s: State, k: KeyName): State {
    if k == Rune('q') || k == Esc || k == Rune('?') then s.(view := s.previousView) else s
  }

  /** The search box: a printable ASCII key is appended up to the character
      limit, backspace removes the last character, other keys are ignored. */
  function EditQuery(q: bytes, k: KeyName): bytes {
    if k == Backspace then (if q == [] then q else q[..|q| - 1])
    else if k.Rune? && ' ' <= k.c <= '~' && |q| < SearchCharLimit then q + [k.c as int]
    else q
  }

  function OnSearchKey(s: State, k: KeyName): State {
    if k == Esc then s.(searchMode := false)
    else if k == Enter then Rederive(s.(searchMode := false))
    else s.(query := EditQuery(s.query, k))
  }

  /** The table cursor, kept on a row. */
  function MoveDown(c: nat, n: nat): nat {
    if n == 0 then 0 else if c + 1 < n then c + 1 else n - 1
  }

  function MoveUp(c: nat, n: nat): nat {
    if n == 0 then 0 else if c == 0 then 0 else if c - 1 < n then c - 1 else n - 1
  }

  function Toggle(sel: set<nat>, i: nat): set<nat> {
    if i in sel then sel - {i} else sel + {i}
  }

  predicate IsAttachmentDigit(k: KeyName) {
    k.Rune? && '1' <= k.c <= '9'
  }

  // One function per key of the list and detail views.  A key whose conditions
  // fail changes nothing and issues nothing.

  /** "?" */
  function ShowHelp(s: State): Step {
    Step(s.(previousView := s.view, view := HelpView), [])
  }

  /** "q" and "ctrl+c": a confirmation in the list, an immediate quit elsewhere. */
  function RequestQuit(s: State): Step {
    if s.view == ListView then Step(ShowConfirm(s, QuitAction, QuitPrompt), []) else Step(s, [Quit])
  }

  /** "esc": back to the list from a message, an immediate quit elsewhere. */
  function GoBack(s: State): Step {
    if s.view == DetailView then Step(s.(view := ListView, selectedMsg := None), []) else Step(s, [Quit])
  }

  /** "j" and "down" */
  function CursorDown(s: State): Step {
    if s.view == ListView then Step(s.(cursor := MoveDown(s.cursor, |s.rows|)), []) else Step(s, [])
  }

  /** "k" and "up" */
  function CursorUp(s: State): Step {
    if s.view == ListView then Step(s.(cursor := MoveUp(s.cursor, |s.rows|)), []) else Step(s, [])
  }

  /** "r" */
  function Refresh(s: State): Step {
    if s.view == ListView then Step(s.(loading := true, status := Refreshing), [LoadMessages]) else Step(s, [])
  }

  /** "/" */
  function StartSearch(s: State): Step {
    if s.view == ListView then Step(s.(searchMode := true), []) else Step(s, [])
  }

  /** "a" */
  function ToggleAutoRefresh(s: State): Step {
    if s.view == ListView then
      Step(s.(autoRefresh := !s.autoRefresh, status := AutoRefreshStatus(!s.autoRefresh)), [])
    else Step(s, [])
  }

  /** "s": the next order, applied to the filtered list and the rows. */
  function CycleSort(s: State): Step {
    if s.view == ListView then
      var mode := NextSortMode(s.sortBy);
      Step(Rerow(Resort(s.(sortBy := mode, status := SortedStatus(mode)))), [])
    else Step(s, [])
  }

  /** "c": copies the sender under the cursor, or the open message's text. */
  function Copy(s: State): Step {
    if s.view == ListView && |s.filtered| > 0 then
      (if s.cursor < |s.filtered| then Step(s.(status := EmailCopied), []) else Step(s, []))
    else if s.view == DetailView && s.selectedMsg.Some? then Step(s.(status := MessageCopied), [])
    else Step(s, [])
  }

  /** "v": leaving bulk mode forgets the selection. */
  function ToggleBulkMode(s: State): Step {
    if s.view == ListView then
      var on := !s.bulkMode;
      var s1 := s.(bulkMode := on, status := BulkModeStatus(on));
      Step(if on then s1 else Rerow(s1.(selected := {})), [])
    else Step(s, [])
  }

  /** " ": in bulk mode, selects or deselects the index under the cursor. */
  function ToggleSelection(s: State): Step {
    if s.view == ListView && s.bulkMode then Step(Rerow(s.(selected := Toggle(s.selected, s.cursor))), [])
    else Step(s, [])
  }

  /** "d": asks to delete the open message, or the bulk selection. */
  function RequestDelete(s: State): Step {
    if s.view == DetailView && s.selectedMsg.Some? then
      Step(ShowConfirm(s, DeleteSingleAction, DeleteSinglePrompt(Truncation(s.selectedMsg.value.summary.subject, 30))), [])
    else if s.view == ListView && s.bulkMode && |s.selected| > 0 then
      Step(ShowConfirm(s, DeleteBulkAction, DeleteBulkPrompt(|s.selected|)), [])
    else Step(s, [])
  }

  /** "enter": shows a fetched message at once, otherwise fetches it. */
  function OpenSelected(s: State): Step {
    if s.view == ListView && |s.filtered| > 0 && s.cursor < |s.filtered| then
      var id := s.filtered[s.cursor].id;
      if id in s.details then Step(s.(selectedMsg := Some(s.details[id]), view := DetailView), [])
      else Step(s.(loading := true), [LoadDetail(id)])
    else Step(s, [])
  }

  /** "1" to "9": downloads the attachment at index `idx` (the digit less one). */
  function DownloadOne(s: State, idx: int): Step {
    if s.view == DetailView && s.selectedMsg.Some? && |s.selectedMsg.value.attachments| > 0 then
      var atts := s.selectedMsg.value.attachments;
      if 0 <= idx < |atts| then Step(s.(status := Downloading(atts[idx].filename)), []) else Step(s, [])
    else Step(s, [])
  }

  /** "A": downloads every attachment of the open message. */
  function DownloadAll(s: State): Step {
    if s.view == DetailView && s.selectedMsg.Some? && |s.selectedMsg.value.attachments| > 0 then
      Step(s.(status := DownloadingAll(|s.selectedMsg.value.attachments|)), [])
    else Step(s, [])
  }

  /** Keys in the list and detail views. */
  function OnBrowseKey(s: State, k: KeyName): Step {
    if k == Rune('?') then ShowHelp(s)
    else if k == Rune('q') || k == CtrlC then RequestQuit(s)
    else if k == Esc then GoBack(s)
    else if k == Rune('j') || k == Down then CursorDown(s)
    else if k == Rune('k') || k == Up then CursorUp(s)
    else if k == Rune('r') then Refresh(s)
    else if k == Rune('/') then StartSearch(s)
    else if k == Rune('a') then ToggleAutoRefresh(s)
    else if k == Rune('s') then CycleSort(s)
    else if k == Rune('c') then Copy(s)
    else if k == Rune('v') then ToggleBulkMode(s)
    else if k == Rune(' ') then ToggleSelection(s)
    else if k == Rune('d') then RequestDelete(s)
    else if k == Enter then OpenSelected(s)
    else if IsAttachmentDigit(k) then DownloadOne(s, (k.c as int) - ('1' as int))
    else if k == Rune('A') then DownloadAll(s)
    else Step(s, [])
  }

  function OnKey(s: State, k: KeyName): Step {
    if s.view == ConfirmView then OnConfirmKey(s, k)
    else if s.view == HelpView then Step(OnHelpKey(s, k), [])
    else if s.searchMode then Step(OnSearchKey(s, k), [])
    else OnBrowseKey(s, k)
  }

  /** One step of the controller, as the source takes it: the delete
      completions are the as-written ones. */
  function Next(s: State, e: Event): Step {
    match e
    case Resize(w, h) => Step(OnResize(s, w, h), [])
    case MessagesLoaded(msgs) => Step(OnMessagesLoaded(s, msgs), [])
    case DetailLoaded(d) => Step(OnDetailLoaded(s, d), [])
    case Deleted => Step(OnDeletedAsWritten(s), [])
    case BulkDeleted => Step(OnBulkDeletedAsWritten(s), [])
    case Err(e) => OnErr(s, e)
    case Tick => Step(s, OnTick(s))
    case Key(k) => OnKey(s, ParseKey(k))
  }
}
