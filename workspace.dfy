/**
 * The playground's tab workspace: the open files, which one is active, the
 * language shown in the header picker, and the text on the editor surface.
 *
 * The source keeps these in React state and reacts to a change of the active
 * tab with an effect that copies the tab's language into the header picker
 * and its content onto the editor surface. Each handler below returns the
 * state after that effect has run (`Settle`) whenever the effect fires.
 */
module Workspace {
  import opened Text
  import opened Seqs
  import opened Languages

  /** One open file. */
  datatype Tab = Tab(id: string, name: string, language: string, content: string)

  /** The workspace: tabs in display order, the active tab's id, the header picker's language, the editor text. */
  datatype State = State(tabs: seq<Tab>, activeTab: string, selectedLanguage: string, editor: string)

  /** `tabs.map(tab => tab.id)`, built front to back. */
  function Ids(tabs: seq<Tab>): (ids: seq<string>)
    ensures |ids| == |tabs|
    ensures forall i :: 0 <= i < |tabs| ==> ids[i] == tabs[i].id
  {
    if tabs == [] then [] else [tabs[0].id] + Ids(tabs[1..])
  }

  predicate DistinctIds(tabs: seq<Tab>)
  {
    forall i, j :: 0 <= i < j < |tabs| ==> tabs[i].id != tabs[j].id
  }

  /** The workspace invariant: at least one tab, no two tabs share an id, the active id names a tab. */
  predicate Valid(s: State)
  {
    |s.tabs| >= 1 && DistinctIds(s.tabs) && s.activeTab in Ids(s.tabs)
  }

  /** The position of the first tab with the given id. */
  function IndexOfId(tabs: seq<Tab>, id: string): (i: nat)
    requires id in Ids(tabs)
    ensures i < |tabs| && tabs[i].id == id
    ensures forall j :: 0 <= j < i ==> tabs[j].id != id
  {
    if tabs[0].id == id then 0
    else
      assert Ids(tabs) == [tabs[0].id] + Ids(tabs[1..]);
      1 + IndexOfId(tabs[1..], id)
  }

  /** `tabs.find(tab => tab.id === activeTab)`. */
  function Current(s: State): (t: Tab)
    requires Valid(s)
    ensures t in s.tabs && t.id == s.activeTab
  {
    s.tabs[IndexOfId(s.tabs, s.activeTab)]
  }

  /** In a distinct-id list the tab with a given id is unique. */
  lemma CurrentUnique(s: State, k: nat)
    requires Valid(s) && k < |s.tabs| && s.tabs[k].id == s.activeTab
    ensures Current(s) == s.tabs[k]
  {
  }

  /** The header picker and the editor surface show the active tab. */
  predicate Synced(s: State)
  {
    Valid(s) && s.selectedLanguage == Current(s).language && s.editor == Current(s).content
  }

  /** The effect that runs when the active tab changes: picker and surface are reloaded from it. */
  function Settle(s: State): (r: State)
    requires Valid(s)
    ensures Synced(r)
    ensures r.tabs == s.tabs && r.activeTab == s.activeTab
  {
    var t := Current(s);
    s.(selectedLanguage := t.language, editor := t.content)
  }

  /** The state the playground opens with: one JavaScript file holding its starter program. */
  function Initial(): (s: State)
    ensures Synced(s) && |s.tabs| == 1
    ensures Current(s) == Tab("1", "main.js", "javascript", TemplateOf("javascript"))
  {
    var opening := State([Tab("1", "main.js", "javascript", TemplateOf("javascript"))], "1", "javascript", "");
    assert Ids(opening.tabs)[0] == "1";
    Settle(opening)
  }

  /** `addNewTab`: a new empty file in the header's language is appended and becomes active. */
  function AddNewTab(s: State, newId: string): (r: State)
    requires Valid(s)
    requires newId !in Ids(s.tabs)
    ensures Synced(r)
    ensures |r.tabs| == |s.tabs| + 1 && r.tabs[..|s.tabs|] == s.tabs
    ensures r.tabs[|s.tabs|].id == newId && r.activeTab == newId
    ensures r.tabs[|s.tabs|].name == "file" + NatToString(|s.tabs| + 1) + "." + ExtensionOf(s.selectedLanguage)
    ensures r.tabs[|s.tabs|].language == s.selectedLanguage && r.tabs[|s.tabs|].content == ""
    ensures r.selectedLanguage == s.selectedLanguage && r.editor == ""
  {
    var tab := Tab(newId, "file" + NatToString(|s.tabs| + 1) + "." + ExtensionOf(s.selectedLanguage),
                   s.selectedLanguage, "");
    var tabs := s.tabs + [tab];
    AppendFresh(s.tabs, tab);
    Settle(s.(tabs := tabs, activeTab := newId))
  }

  /** Appending a tab whose id is not in use keeps the ids distinct and lists the new id. */
  lemma AppendFresh(tabs: seq<Tab>, tab: Tab)
    requires DistinctIds(tabs) && tab.id !in Ids(tabs)
    ensures DistinctIds(tabs + [tab])
    ensures Ids(tabs + [tab]) == Ids(tabs) + [tab.id]
  {
    var ids, longer := Ids(tabs), tabs + [tab];
    forall i | 0 <= i < |tabs|
      ensures longer[i].id != tab.id
    {
      assert ids[i] == tabs[i].id;
    }
    assert Ids(longer) == ids + [tab.id];
  }

  /** The filter test of `closeTab`: keep every tab but the one with this id. */
  function OtherThan(id: string): Tab -> bool
  {
    (t: Tab) => t.id != id
  }

  /** A subsequence of a distinct-id list has distinct ids. */
  lemma {:induction false} SubseqDistinct(a: seq<Tab>, b: seq<Tab>)
    requires Subseq(a, b) && DistinctIds(b)
    ensures DistinctIds(a)
    decreases |b|
  {
    if a != [] && b != [] {
      if a[0] == b[0] && Subseq(a[1..], b[1..]) {
        SubseqDistinct(a[1..], b[1..]);
        forall j | 0 < j < |a|
          ensures a[0].id != a[j].id
        {
          SubseqMember(a[1..], b[1..], j - 1);
          var k :| 0 <= k < |b[1..]| && b[1..][k] == a[1..][j - 1];
          assert b[k + 1] == a[j];
        }
      } else {
        SubseqDistinct(a, b[1..]);
      }
    }
  }

  /** Every element of a subsequence occurs in the longer sequence. */
  lemma {:induction false} SubseqMember<T>(a: seq<T>, b: seq<T>, i: nat)
    requires Subseq(a, b) && i < |a|
    ensures exists k :: 0 <= k < |b| && b[k] == a[i]
    decreases |b|
  {
    if a[0] == b[0] && Subseq(a[1..], b[1..]) {
      if i > 0 {
        SubseqMember(a[1..], b[1..], i - 1);
        var k :| 0 <= k < |b[1..]| && b[1..][k] == a[1..][i - 1];
        assert b[k + 1] == a[i];
      }
    } else {
      SubseqMember(a, b[1..], i);
      var k :| 0 <= k < |b[1..]| && b[1..][k] == a[i];
      assert b[k + 1] == a[i];
    }
  }

  /** In a distinct-id list, filtering out one id removes exactly one tab if the id is present, none otherwise. */
  lemma {:induction false} RemoveIdLength(tabs: seq<Tab>, id: string)
    requires DistinctIds(tabs)
    ensures |Filter(tabs, OtherThan(id))| == |tabs| - (if id in Ids(tabs) then 1 else 0)
    decreases |tabs|
  {
    if tabs != [] {
      assert Ids(tabs) == [tabs[0].id] + Ids(tabs[1..]);
      if tabs[0].id == id {
        forall t | t in tabs[1..]
          ensures OtherThan(id)(t)
        {
          var k :| 0 <= k < |tabs[1..]| && tabs[1..][k] == t;
          assert tabs[k + 1] == t;
        }
        FilterAll(tabs[1..], OtherThan(id));
      } else {
        RemoveIdLength(tabs[1..], id);
      }
    }
  }

  /** What is left after `closeTab` filters a multi-tab list: a non-empty distinct-id list without `id`, one tab shorter if `id` was there. */
  lemma RemainingTabs(s: State, id: string)
    requires Valid(s) && |s.tabs| > 1
    ensures var rest := Filter(s.tabs, OtherThan(id));
      && |rest| >= 1 && DistinctIds(rest) && id !in Ids(rest) && rest[0].id in Ids(rest)
      && |rest| == |s.tabs| - (if id in Ids(s.tabs) then 1 else 0)
      && (s.activeTab != id ==> Current(s) in rest)
  {
    var rest := Filter(s.tabs, OtherThan(id));
    var survivor := if s.tabs[0].id != id then s.tabs[0] else s.tabs[1];
    assert survivor in s.tabs && OtherThan(id)(survivor);
    SubseqDistinct(rest, s.tabs);
    RemoveIdLength(s.tabs, id);
    assert Ids(rest)[0] == rest[0].id;
    forall j | 0 <= j < |rest|
      ensures Ids(rest)[j] != id
    {
      assert rest[j] in rest;
    }
    if s.activeTab != id {
      assert OtherThan(id)(Current(s));
    }
  }

  /** Dropping tabs other than the active one keeps the active tab and everything shown. */
  lemma KeepActive(s: State, rest: seq<Tab>)
    requires Valid(s) && DistinctIds(rest) && |rest| >= 1 && Current(s) in rest
    ensures Valid(s.(tabs := rest)) && Current(s.(tabs := rest)) == Current(s)
  {
    var j :| 0 <= j < |rest| && rest[j] == Current(s);
    assert Ids(rest)[j] == s.activeTab;
    CurrentUnique(s.(tabs := rest), j);
  }

  /** `closeTab`: refused on the last tab; otherwise the tab goes and, if it was active, the first remaining tab takes over. */
  function CloseTab(s: State, id: string): (r: State)
    requires Valid(s)
    ensures Valid(r)
    ensures |s.tabs| == 1 ==> r == s
    ensures |s.tabs| > 1 ==>
      && Subseq(r.tabs, s.tabs)
      && id !in Ids(r.tabs)
      && (forall t :: t in s.tabs && t.id != id ==> t in r.tabs)
      && |r.tabs| == |s.tabs| - (if id in Ids(s.tabs) then 1 else 0)
      && (s.activeTab == id ==> r.activeTab == r.tabs[0].id)
      && (s.activeTab != id ==> r == s.(tabs := r.tabs))
    ensures Synced(s) ==> Synced(r)
  {
    if |s.tabs| == 1 then s
    else
      var rest := Filter(s.tabs, OtherThan(id));
      RemainingTabs(s, id);
      if s.activeTab == id then
        Settle(s.(tabs := rest, activeTab := rest[0].id))
      else
        KeepActive(s, rest);
        s.(tabs := rest)
  }

  /** A tab click (`setActiveTab(tab.id)`): the clicked tab becomes active; a change reloads picker and surface. */
  function SelectTab(s: State, id: string): (r: State)
    requires Valid(s)
    requires id in Ids(s.tabs)
    ensures Valid(r) && r.tabs == s.tabs && r.activeTab == id
    ensures id != s.activeTab ==> Synced(r)
    ensures id == s.activeTab ==> r == s
  {
    if id == s.activeTab then s else Settle(s.(activeTab := id))
  }

  /** The tabs with the one whose id is `id` replaced by `f` of it (`tabs.map(tab => tab.id === id ? f(tab) : tab)`). */
  function MapTab(tabs: seq<Tab>, id: string, f: Tab -> Tab): (r: seq<Tab>)
    ensures id !in Ids(tabs) ==> r == tabs
    ensures DistinctIds(tabs) && id in Ids(tabs) ==>
      var k := IndexOfId(tabs, id); r == tabs[k := f(tabs[k])]
  {
    var r := seq(|tabs|, i requires 0 <= i < |tabs| => if tabs[i].id == id then f(tabs[i]) else tabs[i]);
    assert id !in Ids(tabs) ==> r == tabs by {
      if id !in Ids(tabs) {
        forall i | 0 <= i < |tabs|
          ensures r[i] == tabs[i]
        {
          assert Ids(tabs)[i] == tabs[i].id;
        }
      }
    }
    r
  }

  /** Rewriting one tab with an id-preserving change keeps the invariant, and its result is the new current tab. */
  lemma MapTabValid(s: State, f: Tab -> Tab, r: State)
    requires Valid(s)
    requires f(Current(s)).id == Current(s).id
    requires r.tabs == MapTab(s.tabs, s.activeTab, f) && r.activeTab == s.activeTab
    ensures Valid(r) && Current(r) == f(Current(s)) && Ids(r.tabs) == Ids(s.tabs)
  {
    var k := IndexOfId(s.tabs, s.activeTab);
    assert forall i :: 0 <= i < |s.tabs| && i != k ==> r.tabs[i] == s.tabs[i];
    assert Ids(r.tabs) == Ids(s.tabs);
    CurrentUnique(r, k);
  }

  /** The rewrite `handleLanguageChange` applies to the active tab. */
  function Relabel(lang: string): Tab -> Tab
  {
    (t: Tab) => t.(language := lang, name := "main." + ExtensionOf(lang), content := TemplateOf(lang))
  }

  /** `handleLanguageChange`: the header picker takes `lang`, the active tab is reset to that language's starter file. */
  function HandleLanguageChange(s: State, lang: string): (r: State)
    requires Valid(s)
    ensures Synced(r)
    ensures r.activeTab == s.activeTab && |r.tabs| == |s.tabs| && Ids(r.tabs) == Ids(s.tabs) && r.selectedLanguage == lang
    ensures forall i :: 0 <= i < |s.tabs| && s.tabs[i].id != s.activeTab ==> r.tabs[i] == s.tabs[i]
    ensures Current(r) == Tab(s.activeTab, "main." + ExtensionOf(lang), lang, TemplateOf(lang))
  {
    var r := State(MapTab(s.tabs, s.activeTab, Relabel(lang)), s.activeTab, lang, TemplateOf(lang));
    MapTabValid(s, Relabel(lang), r);
    r
  }

  /** The rewrite the editor's update listener applies to the active tab. */
  function Rewrite(text: string): Tab -> Tab
  {
    (t: Tab) => t.(content := text)
  }

  /** An edit notification: the active tab's content becomes the editor's full text. */
  function Edit(s: State, text: string): (r: State)
    requires Valid(s)
    ensures Valid(r) && r.activeTab == s.activeTab && |r.tabs| == |s.tabs| && Ids(r.tabs) == Ids(s.tabs)
    ensures forall i :: 0 <= i < |s.tabs| && s.tabs[i].id != s.activeTab ==> r.tabs[i] == s.tabs[i]
    ensures Current(r) == Current(s).(content := text)
    ensures r.editor == text
    ensures Synced(s) ==> Synced(r) && r.selectedLanguage == s.selectedLanguage
  {
    var edited := s.(tabs := MapTab(s.tabs, s.activeTab, Rewrite(text)));
    MapTabValid(s, Rewrite(text), edited);
    Settle(edited)
  }

  /** Reporting the same text twice leaves the state of the first report. */
  lemma EditIdempotent(s: State, text: string)
    requires Valid(s)
    ensures Edit(Edit(s, text), text) == Edit(s, text)
  {
    var once := Edit(s, text);
    var twice := Edit(once, text);
    assert twice.tabs == once.tabs by {
      forall i | 0 <= i < |s.tabs|
        ensures twice.tabs[i] == once.tabs[i]
      {
      }
    }
  }

  /** Of two edits, only the later text survives. */
  lemma EditLastWins(s: State, a: string, b: string)
    requires Valid(s)
    ensures Edit(Edit(s, a), b) == Edit(s, b)
  {
    var first := Edit(Edit(s, a), b);
    var second := Edit(s, b);
    assert first.tabs == second.tabs by {
      forall i | 0 <= i < |s.tabs|
        ensures first.tabs[i] == second.tabs[i]
      {
      }
    }
  }

  /** A user action on the workspace. */
  datatype Action =
    | NewTab(freshId: string)
    | Close(closeId: string)
    | Select(selectId: string)
    | ChangeLanguage(lang: string)
    | EditText(text: string)

  /** What the user interface lets happen: a fresh id for a new tab, a listed id for a click, a listed language from the picker. */
  predicate Allowed(s: State, a: Action)
  {
    Valid(s) &&
    match a
    case NewTab(id) => id !in Ids(s.tabs)
    case Select(id) => id in Ids(s.tabs)
    case ChangeLanguage(lang) => IsKnown(lang)
    case _ => true
  }

  /** The header picker and every tab hold a language of the table. */
  predicate KnownLanguages(s: State)
  {
    IsKnown(s.selectedLanguage) && forall t :: t in s.tabs ==> IsKnown(t.language)
  }

  function Step(s: State, a: Action): (r: State)
    requires Allowed(s, a)
    ensures Valid(r)
    ensures Synced(s) ==> Synced(r)
  {
    match a
    case NewTab(id) => AddNewTab(s, id)
    case Close(id) => CloseTab(s, id)
    case Select(id) => SelectTab(s, id)
    case ChangeLanguage(lang) => HandleLanguageChange(s, lang)
    case EditText(text) => Edit(s, text)
  }

  /** A new tab takes the picker's language; the tabs before it are unchanged. */
  lemma AddKeepsKnownLanguages(s: State, newId: string)
    requires Valid(s) && newId !in Ids(s.tabs) && KnownLanguages(s)
    ensures KnownLanguages(AddNewTab(s, newId))
  {
    var r := AddNewTab(s, newId);
    forall t | t in r.tabs
      ensures IsKnown(t.language)
    {
      var i :| 0 <= i < |r.tabs| && r.tabs[i] == t;
      if i < |s.tabs| {
        assert r.tabs[..|s.tabs|][i] == t;
        assert s.tabs[i] in s.tabs;
      }
    }
  }

  /** Closing keeps a subsequence of the tabs, and the picker either stays or takes a remaining tab's language. */
  lemma CloseKeepsKnownLanguages(s: State, id: string)
    requires Valid(s) && KnownLanguages(s)
    ensures KnownLanguages(CloseTab(s, id))
  {
    var r := CloseTab(s, id);
    if |s.tabs| > 1 {
      forall t | t in r.tabs
        ensures IsKnown(t.language)
      {
        var i :| 0 <= i < |r.tabs| && r.tabs[i] == t;
        SubseqMember(r.tabs, s.tabs, i);
      }
      if s.activeTab == id {
        assert r.selectedLanguage == Current(r).language;
      }
    }
  }

  /** Every allowed action keeps every language a table language. */
  lemma StepKeepsKnownLanguages(s: State, a: Action)
    requires Allowed(s, a) && KnownLanguages(s)
    ensures KnownLanguages(Step(s, a))
  {
    match a
    case NewTab(id) =>
      AddKeepsKnownLanguages(s, id);
    case Close(id) =>
      CloseKeepsKnownLanguages(s, id);
    case Select(id) =>
      assert Current(Step(s, a)) in s.tabs;
    case ChangeLanguage(lang) =>
      RewriteKeepsKnown(s, HandleLanguageChange(s, lang));
    case EditText(text) =>
      var r := Edit(s, text);
      assert Current(s) in s.tabs;
      RewriteKeepsKnown(s, r);
  }

  /** A rewrite of the active tab alone keeps the other tabs' languages; the active one is the current tab afterwards. */
  lemma RewriteKeepsKnown(s: State, r: State)
    requires KnownLanguages(s) && Valid(r) && r.activeTab == s.activeTab && Ids(r.tabs) == Ids(s.tabs)
    requires forall i :: 0 <= i < |s.tabs| && s.tabs[i].id != s.activeTab ==> r.tabs[i] == s.tabs[i]
    requires IsKnown(Current(r).language) && IsKnown(r.selectedLanguage)
    ensures KnownLanguages(r)
  {
    forall t | t in r.tabs
      ensures IsKnown(t.language)
    {
      var i :| 0 <= i < |r.tabs| && r.tabs[i] == t;
      assert Ids(r.tabs)[i] == Ids(s.tabs)[i];
      if s.tabs[i].id == s.activeTab {
        CurrentUnique(r, i);
      } else {
        assert s.tabs[i] in s.tabs;
      }
    }
  }

  /** Replays actions from a state; None as soon as one of them is not allowed. */
  function Replay(s: State, actions: seq<Action>): Optional.Option<State>
    requires Valid(s)
    decreases |actions|
  {
    if actions == [] then Optional.Some(s)
    else if !Allowed(s, actions[0]) then Optional.None
    else Replay(Step(s, actions[0]), actions[1..])
  }

  /** Every state reachable from a synced one is synced: at least one tab, the active id is a tab's, picker and surface show it. */
  lemma {:induction false} ReplaySynced(s: State, actions: seq<Action>)
    requires Synced(s)
    ensures Replay(s, actions).Some? ==> Synced(Replay(s, actions).value)
    decreases |actions|
  {
    if actions != [] && Allowed(s, actions[0]) {
      ReplaySynced(Step(s, actions[0]), actions[1..]);
    }
  }

  /** Every state reachable from one whose languages are all table languages has only table languages too. */
  lemma {:induction false} ReplayKnownLanguages(s: State, actions: seq<Action>)
    requires Valid(s) && KnownLanguages(s)
    ensures Replay(s, actions).Some? ==> KnownLanguages(Replay(s, actions).value)
    decreases |actions|
  {
    if actions != [] && Allowed(s, actions[0]) {
      StepKeepsKnownLanguages(s, actions[0]);
      ReplayKnownLanguages(Step(s, actions[0]), actions[1..]);
    }
  }

  /**
   * In particular every state the playground reaches from its opening state is
   * synced and holds only table languages, so the "txt" extension and the empty
   * starter program are never used there.
   */
  lemma ReachableSynced(actions: seq<Action>)
    ensures Replay(Initial(), actions).Some? ==> Synced(Replay(Initial(), actions).value)
    ensures Replay(Initial(), actions).Some? ==> KnownLanguages(Replay(Initial(), actions).value)
    ensures Replay(Initial(), actions).Some? ==> FallbacksUnused(Replay(Initial(), actions).value)
  {
    ReplaySynced(Initial(), actions);
    ReplayKnownLanguages(Initial(), actions);
    if Replay(Initial(), actions).Some? {
      KnownLanguagesAvoidFallbacks(Replay(Initial(), actions).value);
    }
  }

  /** Neither the "txt" extension nor the empty starter program is used for the picker or any tab. */
  predicate FallbacksUnused(s: State)
  {
    ExtensionOf(s.selectedLanguage) != "txt"
    && forall t :: t in s.tabs ==> ExtensionOf(t.language) != "txt" && TemplateOf(t.language) != ""
  }

  /** With table languages only, the fallbacks of `langInfo?.extension || "txt"` and `defaultCode[lang] || ""` are never taken. */
  lemma KnownLanguagesAvoidFallbacks(s: State)
    requires KnownLanguages(s)
    ensures FallbacksUnused(s)
  {
    KnownIdAvoidsFallbacks(s.selectedLanguage);
    forall t | t in s.tabs
      ensures ExtensionOf(t.language) != "txt" && TemplateOf(t.language) != ""
    {
      KnownIdAvoidsFallbacks(t.language);
    }
  }
}
