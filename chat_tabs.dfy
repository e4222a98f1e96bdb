/**
 * The chat page's tab list: the state read back from storage, the initial
 * active tab, and the four updaters that create, close, select and rename
 * tabs. Fresh ids and clock readings are supplied by the caller.
 */
module ChatTabs {
  import opened Wrappers

  const DEFAULT_TAB_ID: string := "default"
  const NEW_CHAT_TITLE: string := "New Chat"

  datatype ChatTab = ChatTab(id: string, title: string, createdAt: int)

  datatype ChatTabsState = ChatTabsState(tabs: seq<ChatTab>, activeTabId: string)

  /** What `JSON.parse` gave for the stored text, as far as `loadState` reads it; a field may be missing. */
  datatype StoredTabs = StoredTabs(tabs: Option<seq<ChatTab>>, activeTabId: Option<string>)

  /** The one-tab state used when storage holds nothing usable. */
  function DefaultState(now: int): (r: ChatTabsState)
    ensures r.tabs == [ChatTab(DEFAULT_TAB_ID, NEW_CHAT_TITLE, now)] && r.activeTabId == DEFAULT_TAB_ID
    ensures Valid(r)
  {
    var r := ChatTabsState([ChatTab(DEFAULT_TAB_ID, NEW_CHAT_TITLE, now)], DEFAULT_TAB_ID);
    assert r.tabs[0].id == DEFAULT_TAB_ID;
    r
  }

  predicate HasTab(tabs: seq<ChatTab>, id: string) {
    exists i :: 0 <= i < |tabs| && tabs[i].id == id
  }

  /** The invariant the updaters keep: some tab exists and the active id names one of them. */
  predicate Valid(s: ChatTabsState) {
    |s.tabs| > 0 && HasTab(s.tabs, s.activeTabId)
  }

  predicate DistinctIds(tabs: seq<ChatTab>) {
    forall i, j :: 0 <= i < j < |tabs| ==> tabs[i].id != tabs[j].id
  }

  /**
   * `loadState`: the stored state when it has at least one tab and a
   * non-empty active id; otherwise (nothing stored, unparsable text, or a
   * stored value failing that test) the default state.
   */
  function LoadState(stored: Option<StoredTabs>, now: int): (r: ChatTabsState)
    ensures (stored.Some? && stored.value.tabs.Some? && |stored.value.tabs.value| > 0 &&
             stored.value.activeTabId.Some? && stored.value.activeTabId.value != []) ==>
              r == ChatTabsState(stored.value.tabs.value, stored.value.activeTabId.value)
    ensures !(stored.Some? && stored.value.tabs.Some? && |stored.value.tabs.value| > 0 &&
              stored.value.activeTabId.Some? && stored.value.activeTabId.value != []) ==>
              r == DefaultState(now)
    ensures |r.tabs| > 0 && r.activeTabId != []
  {
    if stored.Some? && stored.value.tabs.Some? && |stored.value.tabs.value| > 0 &&
       stored.value.activeTabId.Some? && stored.value.activeTabId.value != []
    then ChatTabsState(stored.value.tabs.value, stored.value.activeTabId.value)
    else DefaultState(now)
  }

  /** The `useState` initialiser: a requested tab becomes active only if a tab with that id exists. */
  function InitialState(stored: Option<StoredTabs>, now: int, initialTabId: Option<string>): (r: ChatTabsState)
    ensures r.tabs == LoadState(stored, now).tabs
    ensures initialTabId.Some? && initialTabId.value != [] && HasTab(r.tabs, initialTabId.value) ==>
              r.activeTabId == initialTabId.value
    ensures !(initialTabId.Some? && initialTabId.value != [] && HasTab(r.tabs, initialTabId.value)) ==>
              r.activeTabId == LoadState(stored, now).activeTabId
  {
    var s := LoadState(stored, now);
    if initialTabId.Some? && initialTabId.value != [] && HasTab(s.tabs, initialTabId.value)
    then s.(activeTabId := initialTabId.value)
    else s
  }

  /** `createTab`: a new "New Chat" tab with the supplied id appended and made active. */
  function CreateTab(prev: ChatTabsState, newId: string, now: int): ChatTabsState {
    ChatTabsState(prev.tabs + [ChatTab(newId, NEW_CHAT_TITLE, now)], newId)
  }

  /** `findIndex`: the first position holding the id, or -1. */
  function FindIndex(tabs: seq<ChatTab>, id: string): (r: int)
    ensures -1 <= r < |tabs|
    ensures r == -1 <==> !HasTab(tabs, id)
    ensures r >= 0 ==> tabs[r].id == id && forall k :: 0 <= k < r ==> tabs[k].id != id
  {
    if tabs == [] then -1
    else if tabs[0].id == id then 0
    else
      var r := FindIndex(tabs[1..], id);
      assert forall k :: 0 < k < |tabs| ==> tabs[k] == tabs[1..][k - 1];
      if r == -1 then -1 else r + 1
  }

  /** `tabs.filter(t => t.id !== id)`. */
  function Without(tabs: seq<ChatTab>, id: string): (r: seq<ChatTab>)
    ensures |r| <= |tabs|
  {
    if tabs == [] then []
    else (if tabs[0].id == id then [] else [tabs[0]]) + Without(tabs[1..], id)
  }

  /** The filter keeps exactly the tabs with other ids. */
  lemma {:induction false} WithoutMembers(tabs: seq<ChatTab>, id: string)
    ensures forall t :: t in Without(tabs, id) <==> t in tabs && t.id != id
  {
    if tabs != [] {
      WithoutMembers(tabs[1..], id);
      assert tabs == [tabs[0]] + tabs[1..];
    }
  }

  /**
   * `closeTab`: nothing happens with one tab left or an unknown id; otherwise
   * the tab goes, and if it was active the tab now at its position (or the
   * new last tab) becomes active. `None` where the source would index past
   * the end (every remaining tab had the closed id).
   */
  function CloseTab(prev: ChatTabsState, id: string): Option<ChatTabsState> {
    if |prev.tabs| <= 1 then Some(prev)
    else
      var idx := FindIndex(prev.tabs, id);
      if idx == -1 then Some(prev)
      else
        var newTabs := Without(prev.tabs, id);
        if prev.activeTabId == id then
          var newIdx := if idx < |newTabs| - 1 then idx else |newTabs| - 1;
          if newIdx < 0 then None else Some(ChatTabsState(newTabs, newTabs[newIdx].id))
        else Some(ChatTabsState(newTabs, prev.activeTabId))
  }

  /** `setActiveTab`: any id is accepted. */
  function SetActiveTab(prev: ChatTabsState, id: string): (r: ChatTabsState)
    ensures r.tabs == prev.tabs && r.activeTabId == id
    ensures prev.activeTabId == id ==> r == prev
  {
    if prev.activeTabId == id then prev else prev.(activeTabId := id)
  }

  function Retitle(tabs: seq<ChatTab>, id: string, title: string): seq<ChatTab> {
    if tabs == [] then []
    else [if tabs[0].id == id then tabs[0].(title := title) else tabs[0]] + Retitle(tabs[1..], id, title)
  }

  /** `renameTab`: every tab with the id gets the new title. */
  function RenameTab(prev: ChatTabsState, id: string, title: string): ChatTabsState {
    prev.(tabs := Retitle(prev.tabs, id, title))
  }

  // ---------------------------------------------------------------------
  // Properties
  // ---------------------------------------------------------------------

  /** The tabs before the new one are untouched; the new tab is last and active, so the invariant holds. */
  lemma CreateTabAppends(prev: ChatTabsState, newId: string, now: int)
    ensures var r := CreateTab(prev, newId, now);
            |r.tabs| == |prev.tabs| + 1 && r.tabs[..|prev.tabs|] == prev.tabs &&
            r.tabs[|prev.tabs|] == ChatTab(newId, NEW_CHAT_TITLE, now) && r.activeTabId == newId && Valid(r)
  {
    var r := CreateTab(prev, newId, now);
    assert r.tabs[|prev.tabs|].id == newId;
  }

  /** A fresh id keeps the ids distinct. */
  lemma CreateTabKeepsDistinct(prev: ChatTabsState, newId: string, now: int)
    requires DistinctIds(prev.tabs) && !HasTab(prev.tabs, newId)
    ensures DistinctIds(CreateTab(prev, newId, now).tabs)
  {
  }

  /** Closing the last remaining tab, or an id no tab has, changes nothing. */
  lemma CloseTabNoOp(prev: ChatTabsState, id: string)
    requires |prev.tabs| <= 1 || !HasTab(prev.tabs, id)
    ensures CloseTab(prev, id) == Some(prev)
  {
  }

  /** `Without` keeps the other tabs in their order: it drops exactly the tabs with the id. */
  lemma {:induction false} WithoutSplits(tabs: seq<ChatTab>, id: string, idx: int)
    requires 0 <= idx < |tabs| && tabs[idx].id == id && DistinctIds(tabs)
    ensures Without(tabs, id) == tabs[..idx] + tabs[idx + 1..]
  {
    var rest := tabs[1..];
    if idx == 0 {
      HeadNotInTail(tabs);
      WithoutNone(rest, id);
      assert Without(tabs, id) == Without(rest, id);
    } else {
      assert tabs[0].id != id;
      DistinctTail(tabs);
      WithoutSplits(rest, id, idx - 1);
      assert Without(tabs, id) == [tabs[0]] + Without(rest, id);
      DropAfterHead(tabs, idx);
    }
  }

  lemma HeadNotInTail(tabs: seq<ChatTab>)
    requires tabs != [] && DistinctIds(tabs)
    ensures !HasTab(tabs[1..], tabs[0].id)
  {
    var rest := tabs[1..];
    forall k | 0 <= k < |rest| ensures rest[k].id != tabs[0].id {
      assert rest[k] == tabs[k + 1];
    }
  }

  lemma DistinctTail(tabs: seq<ChatTab>)
    requires tabs != [] && DistinctIds(tabs)
    ensures DistinctIds(tabs[1..])
  {
    var rest := tabs[1..];
    forall i, j | 0 <= i < j < |rest| ensures rest[i].id != rest[j].id {
      assert rest[i] == tabs[i + 1] && rest[j] == tabs[j + 1];
    }
  }

  /** Dropping position `idx > 0` is keeping the head and dropping `idx - 1` of the tail. */
  lemma DropAfterHead(tabs: seq<ChatTab>, idx: int)
    requires 0 < idx < |tabs|
    ensures tabs[..idx] + tabs[idx + 1..] == [tabs[0]] + (tabs[1..][..idx - 1] + tabs[1..][idx..])
  {
    assert tabs[1..][..idx - 1] == tabs[1..idx];
    assert tabs[1..][idx..] == tabs[idx + 1..];
    assert tabs[..idx] == [tabs[0]] + tabs[1..idx];
  }

  lemma {:induction false} WithoutNone(tabs: seq<ChatTab>, id: string)
    requires !HasTab(tabs, id)
    ensures Without(tabs, id) == tabs
  {
    if tabs != [] {
      assert !HasTab(tabs[1..], id) by {
        forall k | 0 <= k < |tabs| - 1 ensures tabs[1..][k].id != id {
          assert tabs[1..][k] == tabs[k + 1];
        }
      }
      WithoutNone(tabs[1..], id);
    }
  }

  /**
   * With distinct ids, closing a known tab among several removes exactly that
   * tab, keeps the others in order, and moves the active tab only if it was
   * the closed one: to the tab that followed it, or to the new last tab. The
   * invariant is kept.
   */
  lemma CloseTabRemoves(prev: ChatTabsState, id: string, idx: int)
    requires Valid(prev) && DistinctIds(prev.tabs) && |prev.tabs| > 1
    requires 0 <= idx < |prev.tabs| && prev.tabs[idx].id == id
    ensures var newTabs := prev.tabs[..idx] + prev.tabs[idx + 1..];
            CloseTab(prev, id).Some? &&
            CloseTab(prev, id).value.tabs == newTabs &&
            (prev.activeTabId == id ==>
               CloseTab(prev, id).value.activeTabId == newTabs[if idx < |newTabs| then idx else |newTabs| - 1].id) &&
            (prev.activeTabId != id ==> CloseTab(prev, id).value.activeTabId == prev.activeTabId) &&
            Valid(CloseTab(prev, id).value) && DistinctIds(CloseTab(prev, id).value.tabs)
  {
    var newTabs := prev.tabs[..idx] + prev.tabs[idx + 1..];
    CloseTabShape(prev, id, idx);
    DropKeepsDistinct(prev.tabs, idx);
    if prev.activeTabId != id {
      var a :| 0 <= a < |prev.tabs| && prev.tabs[a].id == prev.activeTabId;
      DropKeepsOthers(prev.tabs, idx, a);
    }
  }

  /**
   * For any valid state, ids repeated or not: `closeTab` keeps the tabs
   * non-empty with the active id naming one of them, and it fails only when
   * the active tab is closed and every tab has the closed id. When it acts
   * (several tabs, a known id), the new tabs are the filter's result: every
   * tab with the closed id goes and every other one stays.
   */
  lemma CloseTabKeepsValid(prev: ChatTabsState, id: string)
    requires Valid(prev)
    ensures var r := CloseTab(prev, id);
            (r.None? <==> |prev.tabs| > 1 && prev.activeTabId == id && forall t :: t in prev.tabs ==> t.id == id) &&
            (r.Some? ==> Valid(r.value)) &&
            (|prev.tabs| > 1 && HasTab(prev.tabs, id) && r.Some? ==>
               r.value.tabs == Without(prev.tabs, id) &&
               (prev.activeTabId != id ==> r.value.activeTabId == prev.activeTabId))
  {
    var newTabs := Without(prev.tabs, id);
    WithoutMembers(prev.tabs, id);
    if |prev.tabs| > 1 && HasTab(prev.tabs, id) {
      var a :| 0 <= a < |prev.tabs| && prev.tabs[a].id == prev.activeTabId;
      if prev.activeTabId != id {
        assert prev.tabs[a] in newTabs;
        var b :| 0 <= b < |newTabs| && newTabs[b] == prev.tabs[a];
        assert HasTab(newTabs, prev.activeTabId);
      } else if newTabs != [] {
        var idx := FindIndex(prev.tabs, id);
        var n := if idx < |newTabs| - 1 then idx else |newTabs| - 1;
        assert HasTab(newTabs, newTabs[n].id);
      }
    } else if |prev.tabs| > 1 {
      var a :| 0 <= a < |prev.tabs| && prev.tabs[a].id == prev.activeTabId;
      assert prev.tabs[a] in prev.tabs;
    }
  }

  /** The state `closeTab` returns when the id is at `idx` and the ids are distinct. */
  lemma CloseTabShape(prev: ChatTabsState, id: string, idx: int)
    requires DistinctIds(prev.tabs) && |prev.tabs| > 1
    requires 0 <= idx < |prev.tabs| && prev.tabs[idx].id == id
    ensures var newTabs := prev.tabs[..idx] + prev.tabs[idx + 1..];
            var n := if idx < |newTabs| then idx else |newTabs| - 1;
            CloseTab(prev, id) ==
              Some(ChatTabsState(newTabs, if prev.activeTabId == id then newTabs[n].id else prev.activeTabId))
  {
    FindIndexOfDistinct(prev.tabs, id, idx);
    WithoutSplits(prev.tabs, id, idx);
  }

  lemma FindIndexOfDistinct(tabs: seq<ChatTab>, id: string, idx: int)
    requires DistinctIds(tabs) && 0 <= idx < |tabs| && tabs[idx].id == id
    ensures FindIndex(tabs, id) == idx
  {
    assert HasTab(tabs, id);
  }

  /** A tab at another position survives the drop. */
  lemma DropKeepsOthers(tabs: seq<ChatTab>, idx: int, a: int)
    requires 0 <= idx < |tabs| && 0 <= a < |tabs| && a != idx
    ensures HasTab(tabs[..idx] + tabs[idx + 1..], tabs[a].id)
  {
    var newTabs := tabs[..idx] + tabs[idx + 1..];
    var b := if a < idx then a else a - 1;
    assert newTabs[b] == tabs[a];
  }

  lemma DropKeepsDistinct(tabs: seq<ChatTab>, idx: int)
    requires 0 <= idx < |tabs| && DistinctIds(tabs)
    ensures DistinctIds(tabs[..idx] + tabs[idx + 1..])
  {
    var newTabs := tabs[..idx] + tabs[idx + 1..];
    forall i, j | 0 <= i < j < |newTabs| ensures newTabs[i].id != newTabs[j].id {
      var i' := if i < idx then i else i + 1;
      var j' := if j < idx then j else j + 1;
      assert newTabs[i] == tabs[i'] && newTabs[j] == tabs[j'];
    }
  }

  lemma {:induction false} RetitleShape(tabs: seq<ChatTab>, id: string, title: string)
    ensures |Retitle(tabs, id, title)| == |tabs|
    ensures forall i :: 0 <= i < |tabs| ==>
              Retitle(tabs, id, title)[i] == if tabs[i].id == id then tabs[i].(title := title) else tabs[i]
  {
    if tabs != [] {
      RetitleShape(tabs[1..], id, title);
      forall i | 0 < i < |tabs|
        ensures Retitle(tabs, id, title)[i] == if tabs[i].id == id then tabs[i].(title := title) else tabs[i]
      {
        assert tabs[i] == tabs[1..][i - 1];
      }
    }
  }

  /**
   * Renaming changes only the titles of the tabs with the id: ids, creation
   * times, order and the active tab stay, and so does the invariant.
   */
  lemma RenameTabOnlyTitles(prev: ChatTabsState, id: string, title: string)
    ensures var r := RenameTab(prev, id, title);
            |r.tabs| == |prev.tabs| && r.activeTabId == prev.activeTabId &&
            (forall i :: 0 <= i < |prev.tabs| ==>
               r.tabs[i].id == prev.tabs[i].id && r.tabs[i].createdAt == prev.tabs[i].createdAt &&
               r.tabs[i].title == (if prev.tabs[i].id == id then title else prev.tabs[i].title)) &&
            (Valid(prev) ==> Valid(r)) && (DistinctIds(prev.tabs) ==> DistinctIds(r.tabs))
  {
    var r := RenameTab(prev, id, title);
    RetitleShape(prev.tabs, id, title);
    if Valid(prev) {
      var a :| 0 <= a < |prev.tabs| && prev.tabs[a].id == prev.activeTabId;
      assert r.tabs[a].id == prev.activeTabId;
    }
  }

  /** `setActiveTab` does not check its id: the invariant can be broken by it. */
  lemma SetActiveTabUnchecked(now: int)
    ensures !Valid(SetActiveTab(DefaultState(now), "missing"))
  {
    var r := SetActiveTab(DefaultState(now), "missing");
    assert r.tabs == [ChatTab(DEFAULT_TAB_ID, NEW_CHAT_TITLE, now)];
    assert r.tabs[0].id != "missing";
  }

  /** When storage is missing or unusable the result is the single active default tab. */
  lemma LoadFallsBack(stored: Option<StoredTabs>, now: int)
    requires stored.None? || stored.value.tabs.None? || stored.value.tabs.value == [] ||
             stored.value.activeTabId.None? || stored.value.activeTabId.value == []
    ensures LoadState(stored, now) == ChatTabsState([ChatTab("default", "New Chat", now)], "default")
  {
  }
}
