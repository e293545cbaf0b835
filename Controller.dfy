/**
 * The state kept by `main` in app.js once the data is loaded: the `skill` value of the
 * page URL, the mutable selection `selected`, and what the last render showed. The
 * three event handlers (a chip click, the clear link, `popstate`) are the methods
 * `OnToggle`, `Clear` and `PopState`; each ends with the re-render of the skills
 * panel and the project list.
 */
module Controller {
  import opened Wrappers
  import opened Tokens
  import opened Query
  import opened Selection
  import opened Dates
  import opened Projects
  import opened SkillsPanel

  /** An experience or education entry; only its `dates` text matters for its place. */
  datatype Entry = Entry(title: string, dates: Option<string>)

  /** The fields of `data.json` that the filter and the ordering read; any may be missing. */
  datatype Document = Document(
    skillGroups: Option<seq<SkillGroup>>,
    projects: Option<seq<Project>>,
    experience: Option<seq<Entry>>,
    education: Option<seq<Entry>>)

  /** The `key` argument `"dates"` of `sortLatestFirst`. */
  function DatesOf(e: Entry): Option<string> {
    e.dates
  }

  /** The experience or education list as `main` renders it: `data.x || []`, latest first. */
  function Ordered(entries: Option<seq<Entry>>): (r: seq<Entry>)
    ensures multiset(r) == multiset(entries.GetOr([]))
    ensures NonIncreasing(r, EndYearOf(DatesOf))
    ensures forall k :: WithKey(r, EndYearOf(DatesOf), k) == WithKey(entries.GetOr([]), EndYearOf(DatesOf), k)
  {
    SortLatestFirst(Some(entries.GetOr([])), DatesOf)
  }

  /** The URL records the selection when reading it back gives the selection. */
  predicate Restorable(urlValue: Option<string>, selected: seq<string>) {
    ParseSkillParam(urlValue) == selected
  }

  class FilterController {
    /** `data.skill_groups || []`. */
    const skillGroups: seq<SkillGroup>
    /** `data.projects || []`. */
    const projects: seq<Project>
    /** The experience and education lists, ordered once at load. */
    const experience: seq<Entry>
    const education: seq<Entry>

    /** The value of the `skill` parameter of the page URL; `None` when it is absent. */
    var urlValue: Option<string>
    /** The `let selected` of `main`. */
    var selected: seq<string>
    /** What the skills panel, the project list and the status line last showed. */
    var panel: seq<GroupView>
    var shown: seq<Project>
    var status: string

    /** The page shows the current selection. */
    ghost predicate Rendered()
      reads this
    {
      && panel == RenderGroups(skillGroups, selected)
      && shown == FilterProjects(projects, selected)
      && status == StatusLine(selected, |shown|, |projects|)
    }

    /** The URL holds exactly what `setSkillsToURL(selected)` writes. */
    ghost predicate UrlWritten()
      reads this
    {
      urlValue == SerializeSkillParam(selected)
    }

    /** Loading the page: read the selection from the URL, order the lists, render. */
    constructor(doc: Document, url: Option<string>)
      ensures skillGroups == doc.skillGroups.GetOr([]) && projects == doc.projects.GetOr([])
      ensures experience == Ordered(doc.experience) && education == Ordered(doc.education)
      ensures urlValue == url && selected == ParseSkillParam(url)
      ensures Restorable(urlValue, selected)
      ensures Rendered()
    {
      skillGroups := doc.skillGroups.GetOr([]);
      projects := doc.projects.GetOr([]);
      experience := Ordered(doc.experience);
      education := Ordered(doc.education);
      urlValue := url;
      var tokens := ParseSkillParam(url);
      selected := tokens;
      var shownNow := FilterProjects(doc.projects.GetOr([]), tokens);
      panel := RenderGroups(doc.skillGroups.GetOr([]), tokens);
      shown := shownNow;
      status := StatusLine(tokens, |shownNow|, |doc.projects.GetOr([])|);
    }

    /** `renderSkillsGrouped(...)` then `renderProjects(...)` for the current selection. */
    method Render()
      modifies this
      ensures urlValue == old(urlValue) && selected == old(selected)
      ensures Rendered()
    {
      var listed := FilterProjects(projects, selected);
      status := StatusLine(selected, |listed|, |projects|);
      shown := listed;
      panel := RenderGroups(skillGroups, selected);
    }

    /** `setSkillsToURL(selected)`. */
    method WriteUrl()
      modifies this
      ensures selected == old(selected) && panel == old(panel)
      ensures shown == old(shown) && status == old(status)
      ensures UrlWritten()
    {
      urlValue := SerializeSkillParam(selected);
    }

    /** A click on the chip with token `s`. */
    method OnToggle(s: string)
      modifies this
      ensures selected == Toggle(old(selected), s)
      ensures UrlWritten() && Rendered()
      ensures IsToken(s) && Restorable(old(urlValue), old(selected)) ==> Restorable(urlValue, selected)
    {
      var next := Toggle(selected, s);
      if IsToken(s) && Restorable(urlValue, selected) {
        ToggleStaysRestorable(urlValue, selected, s);
      }
      selected := next;
      WriteUrl();
      Render();
    }

    /** A click on the clear link. */
    method Clear()
      modifies this
      ensures selected == [] && urlValue == None
      ensures UrlWritten() && Restorable(urlValue, selected) && Rendered()
    {
      selected := [];
      WriteUrl();
      Render();
    }

    /** Back or forward navigation: the selection is read again from the new URL. */
    method PopState(url: Option<string>)
      modifies this
      ensures urlValue == url && selected == ParseSkillParam(url)
      ensures Restorable(urlValue, selected) && Rendered()
    {
      urlValue := url;
      selected := ParseSkillParam(url);
      Render();
    }
  }

  /**
   * A selection read from the URL, toggled by a token, is written and read back intact:
   * reloading the page after a click shows the same selection.
   */
  lemma ToggleStaysRestorable(urlValue: Option<string>, selected: seq<string>, s: string)
    requires IsToken(s) && Restorable(urlValue, selected)
    ensures Restorable(SerializeSkillParam(Toggle(selected, s)), Toggle(selected, s))
  {
    ToggleKeepsTokens(selected, s);
    SkillParamRoundTrip(Toggle(selected, s));
  }

  /**
   * A chip whose slug is empty (the label `++`, say) has the token "". Clicking it
   * with nothing selected selects [""], which is written as an empty `skill` value,
   * and an empty value reads back as no selection.
   */
  lemma EmptyTokenLostOnReload()
    ensures Toggle([], "") == [""]
    ensures SerializeSkillParam([""]) == Some("")
    ensures ParseSkillParam(SerializeSkillParam(Toggle([], ""))) == []
  {
  }

  /**
   * Whatever else is selected, the empty token does not survive a reload: from
   * `["go"]` the click gives `["go", ""]`, written as `go,`, which reads back as `["go"]`.
   */
  lemma EmptyTokenAlwaysLost(selected: seq<string>)
    requires forall i :: 0 <= i < |selected| ==> IsToken(selected[i])
    ensures Toggle(selected, "") == selected + [""]
    ensures ParseSkillParam(SerializeSkillParam(Toggle(selected, ""))) == selected
  {
    assert "" !in selected;
    TrailingEmptyLost(selected);
  }

  /**
   * Two clicks on a chip whose token is not selected: the selection comes back, and the
   * URL is rewritten to its serialisation (which need not be the value it was loaded
   * from: `?skill=Go` becomes `go`).
   */
  method DoubleClick(c: FilterController, s: string)
    modifies c
    requires s !in c.selected
    ensures c.selected == old(c.selected)
    ensures c.urlValue == SerializeSkillParam(old(c.selected)) && c.Rendered()
  {
    ghost var before := c.selected;
    ToggleTwiceAbsent(before, s);
    c.OnToggle(s);
    c.OnToggle(s);
  }
}
