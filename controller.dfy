/** The inbox controller as the source runs it: a `model` object whose fields the
    update code overwrites step by step.  Every method is proved to leave the
    fields exactly as the matching function of `Session` computes them, so the
    laws proved there about `Session.Next` hold of `Inbox.Update`. */
module Controller {
  import opened Bytes
  import opened Mail
  import opened Render
  import opened Session

  class Inbox {
    var view: View
    var previousView: View
    var messages: seq<Message>
    var filtered: seq<Message>
    /** the filtered list is the message list itself, not a copy */
    var filterAliases: bool
    var details: map<MessageId, MessageDetail>
    var selectedMsg: Option<MessageDetail>
    var width: int
    var height: int
    var loading: bool
    var err: Option<bytes>
    var retryCount: nat
    var searchMode: bool
    var status: Status
    var autoRefresh: bool
    var sortBy: SortMode
    var selected: set<nat>
    var bulkMode: bool
    var confirmAction: Action
    var confirmData: Prompt
    /** the search box's text */
    var query: bytes
    /** the table widget's cursor, columns, rows and height */
    var cursor: nat
    var columns: seq<Column>
    var rows: seq<Row>
    var tableHeight: int
    /** the message viewport's size and the search box's width */
    var viewportWidth: int
    var viewportHeight: int
    var searchWidth: int

    /** The fields as one value of the pure model. */
    function Model(): State
      reads this
    {
      State(view, previousView, messages, filtered, filterAliases, details, selectedMsg, width, height,
            loading, err, retryCount, searchMode, status, autoRefresh, sortBy, selected, bulkMode,
            confirmAction, confirmData, query, cursor, columns, rows, tableHeight, viewportWidth,
            viewportHeight, searchWidth)
    }

    /** `initialModel`, given the cache read at start-up and the current time. */
    constructor (cache: Option<Snapshot>, now: int)
      ensures Model() == Initial(cache, now)
    {
      var msgs: seq<Message> := [];
      if cache.Some? && now - cache.value.timestamp < CacheExpiry {
        msgs := cache.value.messages;
      }
      view := ListView;
      previousView := ListView;
      messages := msgs;
      filtered := msgs;
      filterAliases := true;
      details := map[];
      selectedMsg := None;
      width := 0;
      height := 0;
      loading := |msgs| == 0;
      err := None;
      retryCount := 0;
      searchMode := false;
      status := NoStatus;
      autoRefresh := true;
      sortBy := ByDate;
      selected := {};
      bulkMode := false;
      confirmAction := NoAction;
      confirmData := NoPrompt;
      query := [];
      cursor := 0;
      columns := InitialColumns();
      rows := [];
      tableHeight := 10;
      viewportWidth := 100;
      viewportHeight := 20;
      searchWidth := 0;
    }

    // ------------------------------------------------------ list helpers

    /** The loop of `filterMessages`: the messages matching the lower-cased query, in order. */
    static method SelectMatching(msgs: seq<Message>, q: bytes) returns (result: seq<Message>)
      ensures result == Select(msgs, q)
    {
      result := [];
      var i := 0;
      while i < |msgs|
        invariant 0 <= i <= |msgs|
        invariant result == Select(msgs[..i], q)
      {
        SelectSnoc(msgs, i, q);
        if Matches(msgs[i], q) {
          result := result + [msgs[i]];
        }
        i := i + 1;
      }
      assert msgs[..i] == msgs;
    }

    /** `filterMessages` */
    method FilterMessages()
      modifies this
      ensures Model() == Refilter(old(Model()))
    {
      if query == [] {
        filtered := messages;
        filterAliases := true;
      } else {
        filtered := SelectMatching(messages, ToLower(query));
        filterAliases := false;
      }
    }

    /** `sortMessages`: the filtered list is sorted in place, and so is the
        message list when the two are one list. */
    method SortMessages()
      modifies this
      ensures Model() == Resort(old(Model()))
    {
      filtered := SortBy(sortBy, filtered);
      if filterAliases {
        messages := filtered;
      }
    }

    /** The widths the rows truncate to: the last column with each title, or the
        defaults 25, 35 and 25. */
    static method TextWidths(columns: seq<Column>) returns (fromWidth: nat, subjectWidth: nat, previewWidth: nat)
      ensures fromWidth == WidthOf(columns, FromTitle, 25)
      ensures subjectWidth == WidthOf(columns, SubjectTitle, 35)
      ensures previewWidth == WidthOf(columns, PreviewTitle, 25)
    {
      fromWidth, subjectWidth, previewWidth := 25, 35, 25;
      var i := 0;
      while i < |columns|
        invariant 0 <= i <= |columns|
        invariant fromWidth == WidthOf(columns[..i], FromTitle, 25)
        invariant subjectWidth == WidthOf(columns[..i], SubjectTitle, 35)
        invariant previewWidth == WidthOf(columns[..i], PreviewTitle, 25)
      {
        assert columns[..i + 1][..i] == columns[..i];
        var title := columns[i].title;
        if title == FromTitle {
          fromWidth := columns[i].width;
        } else if title == SubjectTitle {
          subjectWidth := columns[i].width;
        } else if title == PreviewTitle {
          previewWidth := columns[i].width;
        }
        i := i + 1;
      }
      assert columns[..i] == columns;
    }

    /** One row of `updateTableRows`, for a four- or six-column layout. */
    static method BuildRow(msg: Message, checked: bool, cols: seq<Column>,
                           fromWidth: nat, subjectWidth: nat, previewWidth: nat) returns (row: Row)
      requires |cols| == 4 || |cols| == 6
      requires fromWidth == WidthOf(cols, FromTitle, 25)
      requires subjectWidth == WidthOf(cols, SubjectTitle, 35)
      requires previewWidth == WidthOf(cols, PreviewTitle, 25)
      ensures row == RowFor(msg, checked, cols)
    {
      var check := if checked then Text(CheckMark) else Text(Blank);
      var attach := if msg.hasAttach then Text(Paperclip) else Text(Blank);
      var preview := Truncate(msg.intro, previewWidth);
      var from := Truncate(msg.fromAddress, fromWidth);
      var subject := Truncate(msg.subject, subjectWidth);
      if |cols| == 4 {
        row := [check, Text(from), Text(subject), Stamp(msg.createdAt)];
      } else {
        row := [check, attach, Text(from), Text(subject), Text(preview), Stamp(msg.createdAt)];
      }
    }

    /** The loop of `updateTableRows`: one row per message, for the four- and
        six-column layouts only. */
    static method BuildRows(msgs: seq<Message>, sel: set<nat>, cols: seq<Column>,
                            fromWidth: nat, subjectWidth: nat, previewWidth: nat) returns (out: seq<Row>)
      requires fromWidth == WidthOf(cols, FromTitle, 25)
      requires subjectWidth == WidthOf(cols, SubjectTitle, 35)
      requires previewWidth == WidthOf(cols, PreviewTitle, 25)
      ensures out == Rows(msgs, sel, cols)
    {
      var layout := |cols| == 4 || |cols| == 6;
      out := [];
      var i := 0;
      while i < |msgs|
        invariant 0 <= i <= |msgs|
        invariant layout ==> |out| == i
        invariant layout ==> forall j | 0 <= j < i :: out[j] == RowFor(msgs[j], j in sel, cols)
        invariant !layout ==> out == []
      {
        if layout {
          var row := BuildRow(msgs[i], i in sel, cols, fromWidth, subjectWidth, previewWidth);
          out := out + [row];
        }
        i := i + 1;
      }
    }

    /** `updateTableRows` */
    method UpdateTableRows()
      modifies this
      ensures Model() == Rerow(old(Model()))
    {
      var fromWidth, subjectWidth, previewWidth := TextWidths(columns);
      rows := BuildRows(filtered, selected, columns, fromWidth, subjectWidth, previewWidth);
    }

    /** `updateColumnWidths`: the tier for the terminal width, then fresh rows.  (The
        source empties the rows before it sets the columns, so that the table never
        holds rows of the old layout; the rows are rebuilt at once, so the model
        leaves that intermediate state out.) */
    method UpdateColumnWidths(termWidth: int)
      modifies this
      ensures Model() == old(Model()).(columns := ColumnsFor(termWidth),
                                       rows := Rows(filtered, selected, ColumnsFor(termWidth)))
    {
      var newCols: seq<Column>;
      if termWidth < 80 {
        newCols := [Column(CheckTitle, 2), Column(FromTitle, 15),
                    Column(SubjectTitle, MaxInt(20, termWidth - 30)), Column(DateTitle, 10)];
      } else if termWidth < 120 {
        newCols := [Column(CheckTitle, 3), Column(AttachTitle, 3), Column(FromTitle, 20),
                    Column(SubjectTitle, MaxInt(25, termWidth - 55)), Column(PreviewTitle, 15),
                    Column(DateTitle, 12)];
      } else {
        newCols := [Column(CheckTitle, 3), Column(AttachTitle, 3), Column(FromTitle, 25),
                    Column(SubjectTitle, MaxInt(30, termWidth - 85)), Column(PreviewTitle, 25),
                    Column(DateTitle, 14)];
      }
      columns := newCols;
      UpdateTableRows();
    }

    /** Filtering, sorting and the rows, as every list change does them. */
    method Rederive()
      modifies this
      ensures Model() == Session.Rederive(old(Model()))
    {
      FilterMessages();
      SortMessages();
      UpdateTableRows();
    }

    // ------------------------------------------------------ message edits

    /** The position of the first message with the id, or the length when none has it. */
    static method FindMessage(msgs: seq<Message>, id: MessageId) returns (i: nat)
      ensures i == IndexOf(msgs, id)
    {
      i := 0;
      while i < |msgs| && msgs[i].id != id
        invariant i <= |msgs|
        invariant forall j | 0 <= j < i :: msgs[j].id != id
      {
        i := i + 1;
      }
    }

    /** `updateMessageSeen`: the first message with the id gets the flag, then the
        lists and rows are recomputed. */
    method UpdateMessageSeen(id: MessageId, seen: bool)
      modifies this
      ensures Model() == Session.Rederive(old(Model()).(messages := SetSeen(old(messages), id, seen)))
    {
      ghost var s0 := Model();
      var msgs := messages;
      var i := FindMessage(msgs, id);
      SetSeenSpec(msgs, id, seen);
      if i < |msgs| {
        messages := msgs[i := msgs[i].(seen := seen)];
      }
      assert messages == SetSeen(msgs, id, seen);
      assert Model() == s0.(messages := SetSeen(msgs, id, seen));
      Rederive();
    }

    /** The ids of the selected indices that are in range, visited in any order. */
    static method CollectSelected(selected: set<nat>, filtered: seq<Message>) returns (ids: set<MessageId>)
      ensures ids == SelectedIdSet(selected, filtered)
    {
      ids := {};
      var rest := selected;
      while rest != {}
        invariant rest <= selected
        invariant ids == SelectedIdSet(selected - rest, filtered)
        decreases rest
      {
        var idx :| idx in rest;
        SelectedIdSetAdd(selected - rest, idx, filtered);
        assert selected - (rest - {idx}) == (selected - rest) + {idx};
        if idx < |filtered| {
          ids := ids + {filtered[idx].id};
        }
        rest := rest - {idx};
      }
      assert selected - rest == selected;
    }

    /** The surviving messages of a bulk delete, in their order. */
    static method KeepUnlisted(msgs: seq<Message>, ids: set<MessageId>) returns (kept: seq<Message>)
      ensures kept == WithoutIds(msgs, ids)
    {
      kept := [];
      var i := 0;
      while i < |msgs|
        invariant 0 <= i <= |msgs|
        invariant kept == WithoutIds(msgs[..i], ids)
      {
        WithoutIdsSnoc(msgs, i, ids);
        if msgs[i].id !in ids {
          kept := kept + [msgs[i]];
        }
        i := i + 1;
      }
      assert msgs[..i] == msgs;
    }

    // ------------------------------------------------------------- events

    /** The sizes a resize sets: the table and viewport heights keep a floor of 5
        rows, the search box a floor of 20 columns. */
    method SetSizes(w: int, h: int)
      modifies this`width, this`height, this`tableHeight, this`viewportWidth, this`viewportHeight, this`searchWidth
      ensures width == w && height == h
      ensures tableHeight == viewportHeight == MaxInt(h - 10, 5)
      ensures viewportWidth == w - 4 && searchWidth == MaxInt(w - 20, 20)
    {
      var available := h - 6 - 4;
      if available < 5 {
        available := 5;
      }
      var boxWidth := w - 20;
      if boxWidth < 20 {
        boxWidth := 20;
      }
      width, height, tableHeight, viewportWidth, viewportHeight, searchWidth :=
        w, h, available, w - 4, available, boxWidth;
    }

    /** `tea.WindowSizeMsg` */
    method Resize(w: int, h: int)
      modifies this
      ensures Model() == OnResize(old(Model()), w, h)
    {
      SetSizes(w, h);
      UpdateColumnWidths(w);
    }

    /** `messagesLoadedMsg` */
    method MessagesLoaded(msgs: seq<Message>)
      modifies this
      ensures Model() == OnMessagesLoaded(old(Model()), msgs)
    {
      ghost var s0 := Model();
      messages, loading, retryCount := msgs, false, 0;
      assert Model() == s0.(messages := msgs, loading := false, retryCount := 0);
      Rederive();
    }

    /** A fetched message is remembered and shown. */
    method ShowDetail(d: MessageDetail)
      modifies this`selectedMsg, this`details, this`view, this`loading
      ensures selectedMsg == Some(d) && details == old(details)[d.Id() := d]
      ensures view == DetailView && !loading
    {
      selectedMsg, details, view, loading := Some(d), details[d.Id() := d], DetailView, false;
    }

    /** `messageDetailLoadedMsg` */
    method DetailLoaded(d: MessageDetail)
      modifies this
      ensures Model() == OnDetailLoaded(old(Model()), d)
    {
      ghost var s0 := Model();
      ShowDetail(d);
      assert Model() == s0.(selectedMsg := Some(d), details := s0.details[d.Id() := d], view := DetailView, loading := false);
      UpdateMessageSeen(d.Id(), true);
    }

    /** The single-delete edit of the message list: the first message with the id is dropped. */
    method RemoveMessage(id: MessageId)
      modifies this
      ensures Model() == old(Model()).(messages := RemoveFirst(old(messages), id))
    {
      var msgs := messages;
      var i := FindMessage(msgs, id);
      RemoveFirstSpec(msgs, id);
      if i < |msgs| {
        messages := msgs[..i] + msgs[i + 1..];
      }
    }

    /** Closes the deleted message and drops it from the list. */
    method ForgetDeleted(id: MessageId)
      modifies this
      ensures Model() == Session.Rederive(old(Model()).(selectedMsg := None, messages := RemoveFirst(old(messages), id)))
    {
      ghost var s0 := Model();
      selectedMsg := None;
      RemoveMessage(id);
      assert Model() == s0.(selectedMsg := None, messages := RemoveFirst(s0.messages, id));
      Rederive();
    }

    /** `messageDeletedMsg` exactly as the source handles it. */
    method MessageDeletedAsWritten()
      modifies this
      ensures Model() == OnDeletedAsWritten(old(Model()))
    {
      ghost var s0 := Model();
      status, view := Session.MessageDeleted, ListView;
      assert Model() == s0.(status := Session.MessageDeleted, view := ListView);
      if selectedMsg.Some? {
        ForgetDeleted(selectedMsg.value.Id());
      }
    }

    /** `messageDeletedMsg`, with the loading flag cleared by the completion. */
    method MessageDeleted()
      modifies this
      ensures Model() == OnDeleted(old(Model()))
    {
      MessageDeletedAsWritten();
      loading := false;
    }

    /** The bulk-delete edit: the survivors replace the list, the selection is
        cleared and bulk mode ends. */
    method DropSelected(kept: seq<Message>, count: nat)
      modifies this`status, this`messages, this`selected, this`bulkMode
      ensures status == MessagesDeleted(count) && messages == kept
      ensures selected == {} && !bulkMode
    {
      status, messages, selected, bulkMode := MessagesDeleted(count), kept, {}, false;
    }

    /** `bulkDeletedMsg` exactly as the source handles it. */
    method BulkDeletedAsWritten()
      modifies this
      ensures Model() == OnBulkDeletedAsWritten(old(Model()))
    {
      ghost var s0 := Model();
      var ids := CollectSelected(selected, filtered);
      var kept := KeepUnlisted(messages, ids);
      DropSelected(kept, |selected|);
      assert Model() == s0.(status := MessagesDeleted(|s0.selected|), messages := WithoutIds(s0.messages, ids),
                            selected := {}, bulkMode := false);
      Rederive();
    }

    /** `bulkDeletedMsg`, with the loading flag cleared by the completion. */
    method BulkDeleted()
      modifies this
      ensures Model() == OnBulkDeleted(old(Model()))
    {
      BulkDeletedAsWritten();
      loading := false;
    }

    /** `tickMsg`: a reload with the next tick when one is due, else the tick alone. */
    method Tick() returns (cmds: seq<Command>)
      ensures cmds == OnTick(Model())
      ensures RefreshDue(Model()) <==> LoadMessages in cmds
      ensures cmds[|cmds| - 1] == TickCmd
    {
      if autoRefresh && view == ListView && !loading {
        cmds := [LoadMessages, TickCmd];
      } else {
        cmds := [TickCmd];
      }
    }

    /** A failed load: the spinner stops and the failure is counted. */
    method CountFailure()
      modifies this`loading, this`retryCount
      ensures !loading && retryCount == old(retryCount) + 1
    {
      loading := false;
      retryCount := retryCount + 1;
    }

    /** `errMsg`: a reload while fewer than three attempts have failed, then the
        error is kept. */
    method Err(e: bytes) returns (cmds: seq<Command>)
      modifies this
      ensures Step(Model(), cmds) == OnErr(old(Model()), e)
    {
      CountFailure();
      if retryCount < 3 {
        status := RetryStatus(retryCount, e);
        cmds := [LoadMessages];
      } else {
        err, status := Some(e), GaveUp(e);
        cmds := [];
      }
    }

    // ------------------------------------------------------ confirmation

    /** `showConfirm`: the dialog remembers the view it was opened from. */
    method ShowConfirm(action: Action, prompt: Prompt)
      modifies this`previousView, this`view, this`confirmAction, this`confirmData
      ensures previousView == old(view) && view == ConfirmView
      ensures confirmAction == action && confirmData == prompt
    {
      previousView, view, confirmAction, confirmData := view, ConfirmView, action, prompt;
    }

    /** The ids of the selected indices of the filtered list, in index order. */
    static method SelectedIdList(selected: set<nat>, filtered: seq<Message>) returns (ids: seq<MessageId>)
      ensures ids == SelectedIds(selected, filtered, |filtered|)
    {
      ids := [];
      var i := 0;
      while i < |filtered|
        invariant 0 <= i <= |filtered|
        invariant ids == SelectedIds(selected, filtered, i)
      {
        if i in selected {
          ids := ids + [filtered[i].id];
        }
        i := i + 1;
      }
    }

    /** Leaves the dialog for the view it was opened from, with nothing pending. */
    method CloseDialog()
      modifies this`view, this`confirmAction
      ensures view == old(previousView) && confirmAction == NoAction
    {
      view, confirmAction := previousView, NoAction;
    }

    /** A delete request is under way. */
    method StartDeleting(st: Status)
      modifies this`loading, this`status
      ensures loading && status == st
    {
      loading, status := true, st;
    }

    /** `executeConfirmedAction`: back to the view the dialog came from, then the
        pending action's command. */
    method ExecuteConfirmedAction() returns (cmds: seq<Command>)
      modifies this
      ensures Step(Model(), cmds) == ExecuteConfirmed(old(Model()))
    {
      var action := confirmAction;
      CloseDialog();
      cmds := [];
      match action
      case QuitAction =>
        cmds := [Quit];
      case DeleteSingleAction =>
        if selectedMsg.Some? {
          StartDeleting(DeletingOne);
          cmds := [Delete(selectedMsg.value.Id())];
        }
      case DeleteBulkAction =>
        var ids := SelectedIdList(selected, filtered);
        StartDeleting(DeletingMany(|ids|));
        cmds := [BulkDelete(ids)];
      case NoAction =>
    }

    /** A declined dialog: back to the view it came from, nothing pending. */
    method DismissDialog()
      modifies this`view, this`confirmAction, this`confirmData
      ensures view == old(previousView) && confirmAction == NoAction && confirmData == NoPrompt
    {
      CloseDialog();
      confirmData := NoPrompt;
    }

    /** Keys while the confirmation dialog is shown. */
    method ConfirmKey(k: KeyName) returns (cmds: seq<Command>)
      modifies this
      ensures Step(Model(), cmds) == OnConfirmKey(old(Model()), k)
    {
      cmds := [];
      if IsAccept(k) {
        cmds := ExecuteConfirmedAction();
      } else if IsDecline(k) {
        DismissDialog();
      }
    }

    /** Keys while the help screen is shown. */
    method HelpKey(k: KeyName)
      modifies this
      ensures Model() == OnHelpKey(old(Model()), k)
    {
      if k == Rune('q') || k == Esc || k == Rune('?') {
        view := previousView;
      }
    }

    /** "enter" in the search box: the box loses the focus and the list is filtered. */
    method SubmitSearch()
      modifies this
      ensures Model() == Session.Rederive(old(Model()).(searchMode := false))
    {
      ghost var s0 := Model();
      searchMode := false;
      assert Model() == s0.(searchMode := false);
      Rederive();
    }

    /** Keys while the search box has the focus. */
    method SearchKey(k: KeyName)
      modifies this
      ensures Model() == OnSearchKey(old(Model()), k)
    {
      if k == Esc {
        searchMode := false;
      } else if k == Enter {
        SubmitSearch();
      } else {
        query := EditQuery(query, k);
      }
    }

    // ---------------------------------------------- list and detail keys

    method ShowHelp() returns (cmds: seq<Command>)
      modifies this
      ensures Step(Model(), cmds) == Session.ShowHelp(old(Model()))
    {
      previousView, view := view, HelpView;
      cmds := [];
    }

    method RequestQuit() returns (cmds: seq<Command>)
      modifies this
      ensures Step(Model(), cmds) == Session.RequestQuit(old(Model()))
    {
      if view == ListView {
        ShowConfirm(QuitAction, QuitPrompt);
        cmds := [];
      } else {
        cmds := [Quit];
      }
    }

    method GoBack() returns (cmds: seq<Command>)
      modifies this
      ensures Step(Model(), cmds) == Session.GoBack(old(Model()))
    {
      if view == DetailView {
        view, selectedMsg := ListView, None;
        cmds := [];
      } else {
        cmds := [Quit];
      }
    }

    method CursorDown() returns (cmds: seq<Command>)
      modifies this
      ensures Step(Model(), cmds) == Session.CursorDown(old(Model()))
    {
      if view == ListView {
        cursor := MoveDown(cursor, |rows|);
      }
      cmds := [];
    }

    method CursorUp() returns (cmds: seq<Command>)
      modifies this
      ensures Step(Model(), cmds) == Session.CursorUp(old(Model()))
    {
      if view == ListView {
        cursor := MoveUp(cursor, |rows|);
      }
      cmds := [];
    }

    method Refresh() returns (cmds: seq<Command>)
      modifies this
      ensures Step(Model(), cmds) == Session.Refresh(old(Model()))
    {
      cmds := [];
      if view == ListView {
        loading, status := true, Refreshing;
        cmds := [LoadMessages];
      }
    }

    method StartSearch() returns (cmds: seq<Command>)
      modifies this
      ensures Step(Model(), cmds) == Session.StartSearch(old(Model()))
    {
      if view == ListView {
        searchMode := true;
      }
      cmds := [];
    }

    method ToggleAutoRefresh() returns (cmds: seq<Command>)
      modifies this
      ensures Step(Model(), cmds) == Session.ToggleAutoRefresh(old(Model()))
    {
      if view == ListView {
        autoRefresh := !autoRefresh;
        status := AutoRefreshStatus(autoRefresh);
      }
      cmds := [];
    }

    method CycleSort() returns (cmds: seq<Command>)
      modifies this
      ensures Step(Model(), cmds) == Session.CycleSort(old(Model()))
    {
      if view == ListView {
        var mode := NextSortMode(sortBy);
        ghost var s0 := Model();
        sortBy, status := mode, SortedStatus(mode);
        assert Model() == s0.(sortBy := mode, status := SortedStatus(mode));
        SortMessages();
        UpdateTableRows();
      }
      cmds := [];
    }

    method Copy() returns (cmds: seq<Command>)
      modifies this
      ensures Step(Model(), cmds) == Session.Copy(old(Model()))
    {
      if view == ListView && |filtered| > 0 {
        if cursor < |filtered| {
          status := EmailCopied;
        }
      } else if view == DetailView && selectedMsg.Some? {
        status := MessageCopied;
      }
      cmds := [];
    }

    method ToggleBulkMode() returns (cmds: seq<Command>)
      modifies this
      ensures Step(Model(), cmds) == Session.ToggleBulkMode(old(Model()))
    {
      if view == ListView {
        ghost var s0 := Model();
        bulkMode := !bulkMode;
        if !bulkMode {
          selected := {};
          assert Model() == s0.(bulkMode := false, selected := {});
          UpdateTableRows();
        }
        status := BulkModeStatus(bulkMode);
      }
      cmds := [];
    }

    method ToggleSelection() returns (cmds: seq<Command>)
      modifies this
      ensures Step(Model(), cmds) == Session.ToggleSelection(old(Model()))
    {
      if view == ListView && bulkMode {
        if cursor in selected {
          selected := selected - {cursor};
        } else {
          selected := selected + {cursor};
        }
        UpdateTableRows();
      }
      cmds := [];
    }

    method RequestDelete() returns (cmds: seq<Command>)
      modifies this
      ensures Step(Model(), cmds) == Session.RequestDelete(old(Model()))
    {
      if view == DetailView && selectedMsg.Some? {
        var subject := Truncate(selectedMsg.value.summary.subject, 30);
        ShowConfirm(DeleteSingleAction, DeleteSinglePrompt(subject));
      } else if view == ListView && bulkMode && |selected| > 0 {
        ShowConfirm(DeleteBulkAction, DeleteBulkPrompt(|selected|));
      }
      cmds := [];
    }

    method OpenSelected() returns (cmds: seq<Command>)
      modifies this
      ensures Step(Model(), cmds) == Session.OpenSelected(old(Model()))
    {
      cmds := [];
      if view == ListView && |filtered| > 0 {
        if cursor < |filtered| {
          var id := filtered[cursor].id;
          if id in details {
            selectedMsg, view := Some(details[id]), DetailView;
          } else {
            loading := true;
            cmds := [LoadDetail(id)];
          }
        }
      }
    }

    method DownloadOne(idx: int) returns (cmds: seq<Command>)
      modifies this
      ensures Step(Model(), cmds) == Session.DownloadOne(old(Model()), idx)
    {
      if view == DetailView && selectedMsg.Some? && |selectedMsg.value.attachments| > 0 {
        var atts := selectedMsg.value.attachments;
        if 0 <= idx < |atts| {
          status := Downloading(atts[idx].filename);
        }
      }
      cmds := [];
    }

    method DownloadAll() returns (cmds: seq<Command>)
      modifies this
      ensures Step(Model(), cmds) == Session.DownloadAll(old(Model()))
    {
      if view == DetailView && selectedMsg.Some? && |selectedMsg.value.attachments| > 0 {
        status := DownloadingAll(|selectedMsg.value.attachments|);
      }
      cmds := [];
    }

    /** Keys in the list and detail views. */
    method BrowseKey(k: KeyName) returns (cmds: seq<Command>)
      modifies this
      ensures Step(Model(), cmds) == OnBrowseKey(old(Model()), k)
    {
      if k == Rune('?') {
        cmds := ShowHelp();
      } else if k == Rune('q') || k == CtrlC {
        cmds := RequestQuit();
      } else if k == Esc {
        cmds := GoBack();
      } else if k == Rune('j') || k == Down {
        cmds := CursorDown();
      } else if k == Rune('k') || k == Up {
        cmds := CursorUp();
      } else if k == Rune('r') {
        cmds := Refresh();
      } else if k == Rune('/') {
        cmds := StartSearch();
      } else if k == Rune('a') {
        cmds := ToggleAutoRefresh();
      } else if k == Rune('s') {
        cmds := CycleSort();
      } else if k == Rune('c') {
        cmds := Copy();
      } else if k == Rune('v') {
        cmds := ToggleBulkMode();
      } else if k == Rune(' ') {
        cmds := ToggleSelection();
      } else if k == Rune('d') {
        cmds := RequestDelete();
      } else if k == Enter {
        cmds := OpenSelected();
      } else if IsAttachmentDigit(k) {
        cmds := DownloadOne((k.c as int) - ('1' as int));
      } else if k == Rune('A') {
        cmds := DownloadAll();
      } else {
        cmds := [];
      }
    }

    /** `tea.KeyMsg`: the dialog, the help screen and the search box take the key
        before the list and detail views do. */
    method HandleKey(key: string) returns (cmds: seq<Command>)
      modifies this
      ensures Step(Model(), cmds) == OnKey(old(Model()), ParseKey(key))
    {
      var k := ParseKey(key);
      cmds := [];
      if view == ConfirmView {
        cmds := ConfirmKey(k);
      } else if view == HelpView {
        HelpKey(k);
      } else if searchMode {
        SearchKey(k);
      } else {
        cmds := BrowseKey(k);
      }
    }

    /** `Update`: one event, carried out in place. */
    method Update(e: Event) returns (cmds: seq<Command>)
      modifies this
      ensures Step(Model(), cmds) == Next(old(Model()), e)
    {
      cmds := [];
      match e
      case Resize(w, h) => Resize(w, h);
      case MessagesLoaded(msgs) => MessagesLoaded(msgs);
      case DetailLoaded(d) => DetailLoaded(d);
      case Deleted => MessageDeletedAsWritten();
      case BulkDeleted => BulkDeletedAsWritten();
      case Err(error) => cmds := Err(error);
      case Tick => cmds := Tick();
      case Key(key) => cmds := HandleKey(key);
    }
  }
}
