/** What the inbox controller's transitions guarantee, and where they surprise. */
module SessionLaws {
  import opened Bytes
  import opened Mail
  import opened Render
  import opened Session

  // ------------------------------------------------------- confirmation gate

  /** No command of the batch deletes anything. */
  predicate NoDelete(cmds: seq<Command>) {
    forall i | 0 <= i < |cmds| :: !cmds[i].Delete? && !cmds[i].BulkDelete?
  }

  /** What a key in the list or detail view never does: issue a delete, touch the
      retry count or the error, or break the invariant; and when it opens the
      confirmation dialog it remembers the view it came from. */
  predicate BrowseStepOk(s: State, st: Step) {
    && NoDelete(st.cmds)
    && st.state.retryCount == s.retryCount
    && st.state.err == s.err
    && (Inv(s) ==> Inv(st.state))
    && (st.state.view == ConfirmView ==>
          st.state.previousView == s.view && st.state.confirmAction != NoAction)
  }

  // One lemma per key of the list and detail views.

  lemma ShowHelpOk(s: State)
    requires s.view == ListView || s.view == DetailView
    ensures BrowseStepOk(s, ShowHelp(s))
  {
  }

  lemma RequestQuitOk(s: State)
    requires s.view == ListView || s.view == DetailView
    ensures BrowseStepOk(s, RequestQuit(s))
  {
  }

  lemma GoBackOk(s: State)
    requires s.view == ListView || s.view == DetailView
    ensures BrowseStepOk(s, GoBack(s))
  {
  }

  lemma CursorDownOk(s: State)
    requires s.view == ListView || s.view == DetailView
    ensures BrowseStepOk(s, CursorDown(s))
  {
  }

  lemma CursorUpOk(s: State)
    requires s.view == ListView || s.view == DetailView
    ensures BrowseStepOk(s, CursorUp(s))
  {
  }

  lemma RefreshOk(s: State)
    requires s.view == ListView || s.view == DetailView
    ensures BrowseStepOk(s, Refresh(s))
  {
  }

  lemma StartSearchOk(s: State)
    requires s.view == ListView || s.view == DetailView
    ensures BrowseStepOk(s, StartSearch(s))
  {
  }

  lemma ToggleAutoRefreshOk(s: State)
    requires s.view == ListView || s.view == DetailView
    ensures BrowseStepOk(s, ToggleAutoRefresh(s))
  {
  }

  lemma CycleSortOk(s: State)
    requires s.view == ListView || s.view == DetailView
    ensures BrowseStepOk(s, CycleSort(s))
  {
    var mode := NextSortMode(s.sortBy);
    assert Inv(s) ==> Inv(Resort(s.(sortBy := mode, status := SortedStatus(mode))));
  }

  lemma CopyOk(s: State)
    requires s.view == ListView || s.view == DetailView
    ensures BrowseStepOk(s, Copy(s))
  {
  }

  lemma ToggleBulkModeOk(s: State)
    requires s.view == ListView || s.view == DetailView
    ensures BrowseStepOk(s, ToggleBulkMode(s))
  {
  }

  lemma ToggleSelectionOk(s: State)
    requires s.view == ListView || s.view == DetailView
    ensures BrowseStepOk(s, ToggleSelection(s))
  {
  }

  lemma RequestDeleteOk(s: State)
    requires s.view == ListView || s.view == DetailView
    ensures BrowseStepOk(s, RequestDelete(s))
  {
  }

  lemma OpenSelectedOk(s: State)
    requires s.view == ListView || s.view == DetailView
    ensures BrowseStepOk(s, OpenSelected(s))
  {
  }

  lemma DownloadAllOk(s: State)
    requires s.view == ListView || s.view == DetailView
    ensures BrowseStepOk(s, DownloadAll(s))
  {
  }

  lemma DownloadOneOk(s: State, idx: int)
    requires s.view == ListView || s.view == DetailView
    ensures BrowseStepOk(s, DownloadOne(s, idx))
  {
  }

  lemma BrowseKeyOk(s: State, k: KeyName)
    requires s.view == ListView || s.view == DetailView
    ensures BrowseStepOk(s, OnBrowseKey(s, k))
  {
    if k == Rune('?') { ShowHelpOk(s); }
    else if k == Rune('q') || k == CtrlC { RequestQuitOk(s); }
    else if k == Esc { GoBackOk(s); }
    else if k == Rune('j') || k == Down { CursorDownOk(s); }
    else if k == Rune('k') || k == Up { CursorUpOk(s); }
    else if k == Rune('r') { RefreshOk(s); }
    else if k == Rune('/') { StartSearchOk(s); }
    else if k == Rune('a') { ToggleAutoRefreshOk(s); }
    else if k == Rune('s') { CycleSortOk(s); }
    else if k == Rune('c') { CopyOk(s); }
    else if k == Rune('v') { ToggleBulkModeOk(s); }
    else if k == Rune(' ') { ToggleSelectionOk(s); }
    else if k == Rune('d') { RequestDeleteOk(s); }
    else if k == Enter { OpenSelectedOk(s); }
    else if IsAttachmentDigit(k) { DownloadOneOk(s, (k.c as int) - ('1' as int)); }
    else if k == Rune('A') { DownloadAllOk(s); }
  }

  /** What a key does in any view: only an accepted confirmation can issue a
      delete; the retry count and the error stay; the invariant is kept; and
      entering the confirmation view remembers the list or detail view it was
      entered from. */
  predicate KeyStepOk(s: State, k: KeyName, st: Step) {
    && (NoDelete(st.cmds) || (s.view == ConfirmView && IsAccept(k)))
    && st.state.retryCount == s.retryCount
    && st.state.err == s.err
    && (Inv(s) ==> Inv(st.state))
    && (Inv(s) && s.view != ConfirmView && st.state.view == ConfirmView ==>
          && st.state.previousView == s.view
          && st.state.confirmAction != NoAction
          && (s.view == ListView || s.view == DetailView))
  }

  lemma ExecuteConfirmedOk(s: State, k: KeyName)
    requires s.view == ConfirmView && IsAccept(k)
    ensures KeyStepOk(s, k, ExecuteConfirmed(s))
  {
  }

  lemma ConfirmKeyOk(s: State, k: KeyName)
    requires s.view == ConfirmView
    ensures KeyStepOk(s, k, OnConfirmKey(s, k))
  {
    if IsAccept(k) {
      ExecuteConfirmedOk(s, k);
    }
  }

  lemma HelpKeyOk(s: State, k: KeyName)
    requires s.view == HelpView
    ensures KeyStepOk(s, k, Step(OnHelpKey(s, k), []))
  {
  }

  lemma SearchKeyOk(s: State, k: KeyName)
    requires s.view == ListView || s.view == DetailView
    ensures KeyStepOk(s, k, Step(OnSearchKey(s, k), []))
  {
    if k == Enter {
      SearchEnterOk(s);
    }
  }

  lemma SearchEnterOk(s: State)
    requires s.view == ListView || s.view == DetailView
    ensures KeyStepOk(s, Enter, Step(Rederive(s.(searchMode := false)), []))
  {
    RederiveAliases(s.(searchMode := false));
  }

  /** Every key, in every view. */
  lemma KeyOk(s: State, k: KeyName)
    ensures KeyStepOk(s, k, OnKey(s, k))
  {
    if s.view == ConfirmView {
      ConfirmKeyOk(s, k);
    } else if s.view == HelpView {
      HelpKeyOk(s, k);
    } else if s.searchMode {
      SearchKeyOk(s, k);
    } else {
      BrowseKeyOk(s, k);
    }
  }

  /** A delete command is issued only by "y" or "Y" in the confirmation view while
      a delete is pending. */
  lemma DeleteNeedsConfirmation(s: State, e: Event)
    ensures !NoDelete(Next(s, e).cmds) ==>
      && e.Key? && (e.key == "y" || e.key == "Y")
      && s.view == ConfirmView
      && (s.confirmAction == DeleteSingleAction || s.confirmAction == DeleteBulkAction)
  {
    if e.Key? {
      KeyOk(s, ParseKey(e.key));
      ParseKeyRune(e.key);
    } else {
      EventOk(s, e);
    }
  }

  /** A one-character key name is that character. */
  lemma ParseKeyRune(k: string)
    ensures ParseKey(k).Rune? ==> k == [ParseKey(k).c]
    ensures ParseKey(k) == Esc ==> k == "esc"
  {
  }

  /** Confirming runs the pending action: the earlier view comes back, the pending
      action is cleared while the prompt text stays, and the action's command is
      issued (a bulk delete names exactly the in-range selected messages). */
  lemma ConfirmAccepted(s: State, k: string)
    requires s.view == ConfirmView && (k == "y" || k == "Y")
    ensures ConfirmedSpec(s, Next(s, Key(k)))
  {
    assert IsAccept(ParseKey(k));
    assert Next(s, Key(k)) == ExecuteConfirmed(s);
    ExecuteConfirmedSpec(s);
  }

  /** What running the pending action promises of the step it takes. */
  ghost predicate ConfirmedSpec(s: State, st: Step) {
    && st.state.view == s.previousView
    && st.state.confirmAction == NoAction
    && st.state.confirmData == s.confirmData
    && (s.confirmAction == QuitAction ==> st.cmds == [Quit])
    && (s.confirmAction == DeleteSingleAction && s.selectedMsg.Some? ==>
          st.cmds == [Delete(s.selectedMsg.value.Id())] && st.state.loading)
    && (s.confirmAction == DeleteSingleAction && s.selectedMsg.None? ==> st.cmds == [])
    && (s.confirmAction == DeleteBulkAction ==>
          |st.cmds| == 1 && st.cmds[0].BulkDelete? && st.state.loading &&
          forall id :: id in st.cmds[0].ids <==>
            exists i | 0 <= i < |s.filtered| :: i in s.selected && s.filtered[i].id == id)
    && (s.confirmAction == NoAction ==> st.cmds == [])
  }

  lemma ExecuteConfirmedSpec(s: State)
    ensures ConfirmedSpec(s, ExecuteConfirmed(s))
  {
    SelectedIdsSpec(s.selected, s.filtered, |s.filtered|);
  }

  /** Declining restores the earlier view, clears the pending action and prompt,
      and issues nothing. */
  lemma ConfirmDeclined(s: State, k: string)
    requires s.view == ConfirmView && (k == "n" || k == "N" || k == "esc" || k == "q")
    ensures Next(s, Key(k)).cmds == []
    ensures Next(s, Key(k)).state ==
      s.(view := s.previousView, confirmAction := NoAction, confirmData := NoPrompt)
  {
  }

  /** Every other key leaves the confirmation dialog as it is. */
  lemma ConfirmIgnoresOtherKeys(s: State, k: string)
    requires s.view == ConfirmView
    requires k != "y" && k != "Y" && k != "n" && k != "N" && k != "esc" && k != "q"
    ensures Next(s, Key(k)) == Step(s, [])
  {
    ParseKeyRune(k);
  }

  /** Entering the confirmation view remembers the view it was entered from, which
      is the list or the detail view, and leaves an action pending. */
  lemma ShowConfirmRecordsView(s: State, e: Event)
    requires Inv(s)
    requires s.view != ConfirmView
    requires Next(s, e).state.view == ConfirmView
    ensures e.Key?
    ensures Next(s, e).state.previousView == s.view
    ensures s.view == ListView || s.view == DetailView
    ensures Next(s, e).state.confirmAction != NoAction
  {
    if e.Key? {
      KeyOk(s, ParseKey(e.key));
    } else {
      EventOk(s, e);
    }
  }

  // ---------------------------------------------------------- invariants

  /** What every reachable state satisfies. */
  predicate Inv(s: State) {
    && (s.previousView == ListView || s.previousView == DetailView)
    && (s.view == ConfirmView ==> s.confirmAction != NoAction)
    && (s.filterAliases ==> s.filtered == s.messages)
  }

  lemma InitialInv(cache: Option<Snapshot>, now: int)
    ensures Inv(Initial(cache, now))
  {
  }

  /** Recomputing the lists keeps the invariant and every field it does not
      recompute. */
  lemma RederiveAliases(s: State)
    ensures Rederive(s).filterAliases ==> Rederive(s).filtered == Rederive(s).messages
    ensures Inv(s) ==> Inv(Rederive(s))
    ensures var t := Rederive(s);
      && t.view == s.view && t.previousView == s.previousView && t.confirmAction == s.confirmAction
      && t.err == s.err && t.retryCount == s.retryCount && t.loading == s.loading
      && t.status == s.status && t.selectedMsg == s.selectedMsg && t.searchMode == s.searchMode
      && t.autoRefresh == s.autoRefresh
  {
    RederiveFrame(s);
  }

  /** What an event other than a key does: it keeps the invariant, never opens
      the confirmation view, never issues a delete, never forgets a recorded
      error, and lowers the retry count only on a successful load. */
  predicate EventStepOk(s: State, e: Event, st: Step) {
    && (Inv(s) ==> Inv(st.state))
    && (st.state.view == ConfirmView ==> s.view == ConfirmView)
    && NoDelete(st.cmds)
    && (s.err.Some? ==> st.state.err.Some?)
    && (!e.MessagesLoaded? ==> st.state.retryCount >= s.retryCount)
  }

  lemma ResizeOk(s: State, w: int, h: int)
    ensures EventStepOk(s, Resize(w, h), Step(OnResize(s, w, h), []))
  {
  }

  lemma MessagesLoadedOk(s: State, msgs: seq<Message>)
    ensures EventStepOk(s, MessagesLoaded(msgs), Step(OnMessagesLoaded(s, msgs), []))
  {
    RederiveAliases(s.(messages := msgs, loading := false, retryCount := 0));
  }

  lemma DetailLoadedOk(s: State, d: MessageDetail)
    ensures EventStepOk(s, DetailLoaded(d), Step(OnDetailLoaded(s, d), []))
  {
    var s1 := s.(selectedMsg := Some(d), details := s.details[d.Id() := d], view := DetailView, loading := false);
    RederiveAliases(s1.(messages := SetSeen(s1.messages, d.Id(), true)));
  }

  lemma DeletedOk(s: State)
    ensures EventStepOk(s, Deleted, Step(OnDeletedAsWritten(s), []))
  {
    if s.selectedMsg.Some? {
      var s1 := s.(status := MessageDeleted, view := ListView);
      RederiveAliases(s1.(selectedMsg := None, messages := RemoveFirst(s.messages, s.selectedMsg.value.Id())));
    }
  }

  lemma BulkDeletedOk(s: State)
    ensures EventStepOk(s, BulkDeleted, Step(OnBulkDeletedAsWritten(s), []))
  {
    var ids := SelectedIdSet(s.selected, s.filtered);
    RederiveAliases(s.(status := MessagesDeleted(|s.selected|), messages := WithoutIds(s.messages, ids),
                       selected := {}, bulkMode := false));
  }

  lemma ErrOk(s: State, e: bytes)
    ensures EventStepOk(s, Err(e), OnErr(s, e))
  {
  }

  lemma TickOk(s: State)
    ensures EventStepOk(s, Tick, Step(s, OnTick(s)))
  {
  }

  lemma EventOk(s: State, e: Event)
    requires !e.Key?
    ensures EventStepOk(s, e, Next(s, e))
  {
    match e
    case Resize(w, h) => ResizeOk(s, w, h);
    case MessagesLoaded(msgs) => MessagesLoadedOk(s, msgs);
    case DetailLoaded(d) => DetailLoadedOk(s, d);
    case Deleted => DeletedOk(s);
    case BulkDeleted => BulkDeletedOk(s);
    case Err(x) => ErrOk(s, x);
    case Tick => TickOk(s);
  }

  /** Every event keeps the invariant. */
  lemma NextInv(s: State, e: Event)
    requires Inv(s)
    ensures Inv(Next(s, e).state)
  {
    if e.Key? {
      KeyOk(s, ParseKey(e.key));
    } else {
      EventOk(s, e);
    }
  }

  // ------------------------------------------------------ delete completion

  /** Bulk-delete completion drops every message whose id belongs to an in-range
      selected index of the current filtered list, keeps the rest (in order unless
      the empty query makes the list the sorted one), and leaves bulk mode with an
      empty selection. */
  lemma BulkDeletedSpec(s: State)
    ensures var t := OnBulkDeletedAsWritten(s);
      var ids := SelectedIdSet(s.selected, s.filtered);
      && t.selected == {} && !t.bulkMode && t.loading == s.loading
      && t.status == MessagesDeleted(|s.selected|)
      && (forall m :: m in t.messages <==> m in s.messages && m.id !in ids)
      && multiset(t.messages) == multiset(WithoutIds(s.messages, ids))
      && (s.query != [] ==> t.messages == WithoutIds(s.messages, ids))
      && (s.query == [] ==> t.messages == SortBy(s.sortBy, WithoutIds(s.messages, ids)))
      && t.view == s.view && t.selectedMsg == s.selectedMsg && t.details == s.details
  {
    var ids := SelectedIdSet(s.selected, s.filtered);
    var t := OnBulkDeletedAsWritten(s);
    var kept := WithoutIds(s.messages, ids);
    forall m ensures m in t.messages <==> m in s.messages && m.id !in ids {
      KeepMembership(s.messages, (m: Message) => m.id !in ids, m);
      if s.query == [] {
        assert multiset(t.messages) == multiset(kept);
        assert m in t.messages <==> m in multiset(t.messages);
        assert m in kept <==> m in multiset(kept);
      }
    }
  }

  /** An id is dropped exactly when some in-range selected index shows it. */
  lemma SelectedIdSetSpec(selected: set<nat>, filtered: seq<Message>, id: MessageId)
    ensures id in SelectedIdSet(selected, filtered) <==>
      exists i | 0 <= i < |filtered| :: i in selected && filtered[i].id == id
  {
    if exists i | 0 <= i < |filtered| :: i in selected && filtered[i].id == id {
      var i :| 0 <= i < |filtered| && i in selected && filtered[i].id == id;
      assert id == filtered[i].id;
    }
  }

  /** Bulk deletion keeps the surviving messages in their order. */
  lemma WithoutIdsKeepsOrder(a: seq<Message>, b: seq<Message>, ids: set<MessageId>)
    ensures WithoutIds(a + b, ids) == WithoutIds(a, ids) + WithoutIds(b, ids)
  {
    KeepAppend(a, b, (m: Message) => m.id !in ids);
  }

  /** Single-delete completion returns to the list and closes the message; the
      selection and the fetched details stay. */
  lemma DeletedSpec(s: State)
    ensures var t := OnDeletedAsWritten(s);
      && t.view == ListView && t.selectedMsg == None && t.loading == s.loading && t.status == MessageDeleted
      && t.selected == s.selected && t.bulkMode == s.bulkMode && t.details == s.details
  {
    if s.selectedMsg.Some? {
      var s1 := s.(status := MessageDeleted, view := ListView);
      RederiveFrame(s1.(selectedMsg := None, messages := RemoveFirst(s.messages, s.selectedMsg.value.Id())));
    }
  }

  /** It removes only the first message with the open message's id; with no open
      message the lists stay as they are. */
  lemma DeletedRemovesFirst(s: State)
    ensures var t := OnDeletedAsWritten(s);
      && (s.selectedMsg.None? ==> t.messages == s.messages && t.filtered == s.filtered && t.rows == s.rows)
      && (s.selectedMsg.Some? ==>
            var i := IndexOf(s.messages, s.selectedMsg.value.Id());
            var rest := if i < |s.messages| then s.messages[..i] + s.messages[i + 1..] else s.messages;
            && (s.query != [] ==> t.messages == rest)
            && multiset(t.messages) == multiset(rest))
  {
    if s.selectedMsg.Some? {
      var id := s.selectedMsg.value.Id();
      RemoveFirstSpec(s.messages, id);
      var s2 := s.(status := MessageDeleted, view := ListView).(selectedMsg := None, messages := RemoveFirst(s.messages, id));
      assert OnDeletedAsWritten(s).messages == Rederive(s2).messages;
      RederiveLists(s2);
      RederiveSpec(s2);
    }
  }

  /** Opening a fetched message marks the first list entry with its id as seen
      and changes no other entry: the list holds exactly those entries, and
      with a query set it keeps their order (an empty query re-sorts it). */
  lemma DetailLoadedMarksSeen(s: State, d: MessageDetail)
    ensures var t := OnDetailLoaded(s, d);
      && t.view == DetailView && t.selectedMsg == Some(d) && !t.loading
      && t.details == s.details[d.Id() := d]
      && multiset(t.messages) == multiset(SetSeen(s.messages, d.Id(), true))
      && (s.query != [] ==>
           && |t.messages| == |s.messages|
           && forall j | 0 <= j < |s.messages| ::
                t.messages[j] == if j == IndexOf(s.messages, d.Id()) then s.messages[j].(seen := true) else s.messages[j])
  {
    SetSeenSpec(s.messages, d.Id(), true);
    var s1 := s.(selectedMsg := Some(d), details := s.details[d.Id() := d], view := DetailView, loading := false);
    var s2 := s1.(messages := SetSeen(s1.messages, d.Id(), true));
    RederiveLists(s2);
    RederiveFrame(s2);
    if s.query == [] {
      RederiveSpec(s2);
      assert Filtered(s2.messages, []) == s2.messages;
    }
  }

  // ------------------------------------------------------------- retries

  /** An error clears loading and counts a retry; below three a list reload is
      issued, whichever command failed, otherwise the error is kept and nothing is
      issued. */
  lemma RetryCeiling(s: State, e: bytes)
    ensures var st := OnErr(s, e);
      && !st.state.loading
      && st.state.retryCount == s.retryCount + 1
      && (st.state.retryCount < 3 <==> LoadMessages in st.cmds)
      && (st.state.retryCount < 3 ==> st.cmds == [LoadMessages] && st.state.err == s.err)
      && (st.state.retryCount >= 3 ==> st.cmds == [] && st.state.err == Some(e))
  {
  }

  /** A successful load clears loading and the retry count. */
  lemma LoadResetsRetries(s: State, msgs: seq<Message>)
    ensures !OnMessagesLoaded(s, msgs).loading
    ensures OnMessagesLoaded(s, msgs).retryCount == 0
  {
  }

  /** Only a successful load lowers the retry count, and no event clears a recorded error. */
  lemma RetriesAndErrorsPersist(s: State, e: Event)
    ensures !e.MessagesLoaded? ==> Next(s, e).state.retryCount >= s.retryCount
    ensures s.err.Some? ==> Next(s, e).state.err.Some?
  {
    if e.Key? {
      KeyOk(s, ParseKey(e.key));
    } else {
      EventOk(s, e);
    }
  }

  // ---------------------------------------------------------------- tick

  /** A tick always re-arms the timer and loads the list exactly when auto-refresh
      is on, the list is shown and nothing is loading. */
  lemma TickSpec(s: State)
    ensures TickCmd in OnTick(s)
    ensures LoadMessages in OnTick(s) <==> s.autoRefresh && s.view == ListView && !s.loading
  {
  }

  // ------------------------------------------------------------ key handling

  /** Esc in the list view quits at once, without a confirmation. */
  lemma EscFromListQuits(s: State)
    requires s.view == ListView && !s.searchMode
    ensures Next(s, Key("esc")) == Step(s, [Quit])
  {
  }

  /** Esc while searching only leaves search mode: the query and the filtered
      list stay as they are. */
  lemma EscInSearchKeepsQuery(s: State)
    requires s.view == ListView || s.view == DetailView
    requires s.searchMode
    ensures Next(s, Key("esc")) == Step(s.(searchMode := false), [])
  {
  }

  /** Enter while searching applies the typed query. */
  lemma EnterInSearchFilters(s: State)
    requires s.view == ListView && s.searchMode
    ensures AppliedQuery(s, Next(s, Key("enter")).state)
  {
    ParseEnter();
    assert Next(s, Key("enter")) == Step(Rederive(s.(searchMode := false)), []);
    ApplyQuerySpec(s);
  }

  /** Search mode is over and the filtered list is the sorted filter of the messages. */
  ghost predicate AppliedQuery(s: State, t: State) {
    && !t.searchMode
    && multiset(t.filtered) == multiset(Filtered(s.messages, s.query))
    && Sorted(s.sortBy, t.filtered)
  }

  lemma ApplyQuerySpec(s: State)
    ensures AppliedQuery(s, Rederive(s.(searchMode := false)))
  {
    RederiveFrame(s.(searchMode := false));
    RederiveSpec(s.(searchMode := false));
  }

  lemma ParseEnter()
    ensures ParseKey("enter") == Enter
  {
    assert "enter"[1] != "esc"[1];
  }

  /** Typed text never grows the query beyond the character limit. */
  lemma EditQueryBound(q: bytes, k: KeyName)
    ensures |EditQuery(q, k)| <= if |q| < SearchCharLimit then SearchCharLimit else |q|
    ensures k == Backspace && q != [] ==> EditQuery(q, k) == q[..|q| - 1]
    ensures k.Rune? && ' ' <= k.c <= '~' && |q| < SearchCharLimit ==> EditQuery(q, k) == q + [k.c as int]
  {
  }

  /** "s" in the list moves to the next order and reorders the filtered list, but
      keeps the selection, which still names positions rather than messages. */
  lemma SortKeySpec(s: State)
    requires s.view == ListView && !s.searchMode
    ensures var t := Next(s, Key("s")).state;
      && t.sortBy == NextSortMode(s.sortBy)
      && multiset(t.filtered) == multiset(s.filtered)
      && Sorted(t.sortBy, t.filtered)
      && (s.filterAliases ==> t.messages == t.filtered)
      && (!s.filterAliases ==> t.messages == s.messages)
      && t.selected == s.selected
  {
    assert Next(s, Key("s")) == CycleSort(s);
    CycleSortSpec(s);
  }

  lemma CycleSortSpec(s: State)
    requires s.view == ListView
    ensures var t := CycleSort(s).state;
      && t.sortBy == NextSortMode(s.sortBy)
      && multiset(t.filtered) == multiset(s.filtered)
      && Sorted(t.sortBy, t.filtered)
      && (s.filterAliases ==> t.messages == t.filtered)
      && (!s.filterAliases ==> t.messages == s.messages)
      && t.selected == s.selected
  {
  }

  /** Space in bulk mode toggles the index under the cursor. */
  lemma SpaceTogglesSelection(s: State)
    requires s.view == ListView && !s.searchMode && s.bulkMode
    ensures var t := Next(s, Key(" ")).state;
      && (s.cursor in t.selected <==> s.cursor !in s.selected)
      && forall i | i != s.cursor :: i in t.selected <==> i in s.selected
  {
  }

  /** A resize sizes the widgets from the terminal and rebuilds the layout. */
  lemma ResizeSpec(s: State, w: int, h: int)
    ensures var t := OnResize(s, w, h);
      && t.tableHeight == t.viewportHeight >= 5
      && (h >= 15 ==> t.tableHeight == h - 10)
      && t.viewportWidth == w - 4
      && t.searchWidth >= 20 && (w >= 40 ==> t.searchWidth == w - 20)
      && t.columns == ColumnsFor(w)
      && t.rows == Rows(s.filtered, s.selected, ColumnsFor(w))
  {
  }

  // -------------------------------------------------------------- findings

  /** As written, a completed delete leaves the loading flag set: the spinner
      keeps running and the next tick only re-arms. Auto-refresh stays off until
      a manual refresh, a fetched message or an error clears the flag. */
  lemma DeleteLeavesLoadingAsWritten(s: State)
    requires s.loading
    ensures OnDeletedAsWritten(s).loading
    ensures OnBulkDeletedAsWritten(s).loading
    ensures OnTick(OnDeletedAsWritten(s)) == [TickCmd]
    ensures OnTick(OnBulkDeletedAsWritten(s)) == [TickCmd]
  {
    DeletedFrame(s);
    BulkDeletedFrame(s);
  }

  /** The single-delete completion keeps the flags the tick looks at and
      returns to the list. */
  lemma DeletedFrame(s: State)
    ensures OnDeletedAsWritten(s).loading == s.loading && OnDeletedAsWritten(s).autoRefresh == s.autoRefresh
    ensures OnDeletedAsWritten(s).view == ListView
  {
    if s.selectedMsg.Some? {
      var s1 := s.(status := MessageDeleted, view := ListView);
      RederiveFrame(s1.(selectedMsg := None, messages := RemoveFirst(s.messages, s.selectedMsg.value.Id())));
    }
  }

  /** The bulk-delete completion keeps the flags the tick looks at and the view. */
  lemma BulkDeletedFrame(s: State)
    ensures OnBulkDeletedAsWritten(s).loading == s.loading && OnBulkDeletedAsWritten(s).autoRefresh == s.autoRefresh
    ensures OnBulkDeletedAsWritten(s).view == s.view
  {
    var ids := SelectedIdSet(s.selected, s.filtered);
    RederiveFrame(s.(status := MessagesDeleted(|s.selected|), messages := WithoutIds(s.messages, ids),
                     selected := {}, bulkMode := false));
  }

  /** With the flag cleared, the list view is back in the auto-refresh cycle. */
  lemma DeleteResumesRefresh(s: State)
    requires s.autoRefresh
    ensures !OnDeleted(s).loading
    ensures LoadMessages in OnTick(OnDeleted(s))
    ensures !OnBulkDeleted(s).loading
    ensures s.view == ListView ==> LoadMessages in OnTick(OnBulkDeleted(s))
  {
    DeletedFrame(s);
    BulkDeletedFrame(s);
  }

  /** "v" in the list view enters bulk mode and keeps the lists. */
  lemma KeyBulkOn(s: State)
    requires s.view == ListView && !s.searchMode && !s.bulkMode
    ensures var t := Next(s, Key("v")).state;
      && t.view == ListView && !t.searchMode && t.bulkMode
      && t.messages == s.messages && t.filtered == s.filtered && t.selected == s.selected && t.cursor == s.cursor
  {
    assert ParseKey("v") == Rune('v');
  }

  /** " " in bulk mode toggles the index under the cursor. */
  lemma KeySelect(s: State)
    requires s.view == ListView && !s.searchMode && s.bulkMode
    ensures var t := Next(s, Key(" ")).state;
      && t.view == ListView && !t.searchMode && t.bulkMode
      && t.messages == s.messages && t.filtered == s.filtered && t.selected == Toggle(s.selected, s.cursor)
  {
    assert ParseKey(" ") == Rune(' ');
  }

  /** "d" in bulk mode with a selection opens the bulk-delete dialog. */
  lemma KeyBulkDelete(s: State)
    requires s.view == ListView && !s.searchMode && s.bulkMode && |s.selected| > 0
    ensures var t := Next(s, Key("d")).state;
      && t.view == ConfirmView && t.confirmAction == DeleteBulkAction
      && t.messages == s.messages && t.filtered == s.filtered && t.selected == s.selected
  {
    assert ParseKey("d") == Rune('d');
  }

  /** "y" in the bulk-delete dialog issues the bulk delete. */
  lemma KeyConfirmBulk(s: State)
    requires s.view == ConfirmView && s.confirmAction == DeleteBulkAction
    ensures var t := Next(s, Key("y"));
      && t.cmds == [BulkDelete(SelectedIds(s.selected, s.filtered, |s.filtered|))]
      && t.state.messages == s.messages && t.state.filtered == s.filtered && t.state.selected == s.selected
  {
    assert ParseKey("y") == Rune('y');
  }

  /** On an empty inbox, "v", " ", "d" and "y" select index 0 and ask for a
      bulk delete of no messages. `bulkDeleteMessages` answers an empty id list
      with `bulkDeletedMsg` at once, and its handler then asks `make` for a
      negative capacity; the survivors need none. */
  lemma EmptyInboxBulkDeletePanics(now: int)
    ensures var s0 := Initial(None, now);
      var s1 := Next(s0, Key("v")).state;
      var s2 := Next(s1, Key(" ")).state;
      var s3 := Next(s2, Key("d")).state;
      var t := Next(s3, Key("y"));
      && t.cmds == [BulkDelete([])]
      && t.state.messages == [] && t.state.selected == {0}
      && BulkDeleteCapacity(t.state) < 0
      && SurvivorCapacity(t.state) == 0
  {
    var s0 := Initial(None, now);
    KeyBulkOn(s0);
    var s1 := Next(s0, Key("v")).state;
    KeySelect(s1);
    var s2 := Next(s1, Key(" ")).state;
    assert s2.selected == {0};
    KeyBulkDelete(s2);
    var s3 := Next(s2, Key("d")).state;
    KeyConfirmBulk(s3);
    var t := Next(s3, Key("y"));
    assert SelectedIdSet(t.state.selected, t.state.filtered) == {};
  }

  /** The survivor capacity is at most the list length and is exactly the
      length of the list the bulk-delete completion leaves. */
  lemma BulkDeletedFits(s: State)
    ensures SurvivorCapacity(s) <= |s.messages|
    ensures |OnBulkDeletedAsWritten(s).messages| == SurvivorCapacity(s)
  {
    var ids := SelectedIdSet(s.selected, s.filtered);
    KeepLength(s.messages, (m: Message) => m.id !in ids);
    var s2 := s.(status := MessagesDeleted(|s.selected|), messages := WithoutIds(s.messages, ids),
                 selected := {}, bulkMode := false);
    RederiveLists(s2);
    if s.query == [] {
      RederiveSpec(s2);
      assert Filtered(s2.messages, []) == s2.messages;
      assert |multiset(Rederive(s2).filtered)| == |multiset(s2.messages)|;
    }
  }
}

