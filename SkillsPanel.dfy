/**
 * What `renderSkillsGrouped` shows: for each skill group its topic and one chip per
 * raw skill, in order. A chip carries the raw text it displays, the token its link
 * and its click handler use (`slug(rawSkill)`), and its `data-selected` flag.
 */
module SkillsPanel {
  import opened Tokens
  import opened Selection

  /** An entry of `skill_groups`: a topic and the raw skill labels under it. */
  datatype SkillGroup = SkillGroup(topic: string, skills: seq<string>)

  /** One skill link: the text shown, the token it toggles, and whether it is highlighted. */
  datatype Chip = Chip(raw: string, token: string, selected: bool)

  /** One rendered group: its title and its chips. */
  datatype GroupView = GroupView(topic: string, chips: seq<Chip>)

  /** The chips of one group, in the order of its raw skills. */
  function Chips(skills: seq<string>, selected: seq<string>): (chips: seq<Chip>)
    ensures |chips| == |skills|
    ensures forall j :: 0 <= j < |skills| ==>
      chips[j].raw == skills[j] && chips[j].token == Slug(skills[j])
      && (chips[j].selected <==> Slug(skills[j]) in selected)
  {
    if skills == [] then []
    else
      var token := Slug(skills[0]);
      [Chip(skills[0], token, token in selected)] + Chips(skills[1..], selected)
  }

  /** The whole panel, one view per group, in the order of the groups. */
  function RenderGroups(groups: seq<SkillGroup>, selected: seq<string>): (views: seq<GroupView>)
    ensures |views| == |groups|
    ensures forall i :: 0 <= i < |groups| ==>
      views[i].topic == groups[i].topic && |views[i].chips| == |groups[i].skills|
    ensures forall i, j :: 0 <= i < |groups| && 0 <= j < |groups[i].skills| ==>
      views[i].chips[j].raw == groups[i].skills[j]
      && views[i].chips[j].token == Slug(groups[i].skills[j])
      && (views[i].chips[j].selected <==> Slug(groups[i].skills[j]) in selected)
  {
    if groups == [] then []
    else [GroupView(groups[0].topic, Chips(groups[0].skills, selected))] + RenderGroups(groups[1..], selected)
  }

  /** Every chip's token is in slug form. */
  lemma ChipTokensAreNormal(groups: seq<SkillGroup>, selected: seq<string>, i: nat, j: nat)
    requires i < |groups| && j < |groups[i].skills|
    ensures IsSlugNormal(RenderGroups(groups, selected)[i].chips[j].token)
  {
  }

  /**
   * Two chips with the same token are highlighted together, even in different groups
   * and with different raw text ("Machine Learning" and "machine_learning").
   */
  lemma SameTokenSameFlag(groups: seq<SkillGroup>, selected: seq<string>, i1: nat, j1: nat, i2: nat, j2: nat)
    requires i1 < |groups| && j1 < |groups[i1].skills|
    requires i2 < |groups| && j2 < |groups[i2].skills|
    requires Slug(groups[i1].skills[j1]) == Slug(groups[i2].skills[j2])
    ensures var views := RenderGroups(groups, selected);
      views[i1].chips[j1].selected == views[i2].chips[j2].selected
  {
  }

  /**
   * After toggling `t`, exactly the chips whose token is `t` change their flag; every
   * other chip keeps it.
   */
  lemma ToggleFlipsOnlyItsChips(groups: seq<SkillGroup>, selected: seq<string>, t: string, i: nat, j: nat)
    requires i < |groups| && j < |groups[i].skills|
    ensures var before := RenderGroups(groups, selected)[i].chips[j];
      var after := RenderGroups(groups, Toggle(selected, t))[i].chips[j];
      && after.raw == before.raw && after.token == before.token
      && (before.token == t ==> after.selected == !before.selected)
      && (before.token != t ==> after.selected == before.selected)
  {
  }

  /** Clicking a chip hands its own token to the toggle, so that chip flips. */
  lemma ClickFlipsChip(groups: seq<SkillGroup>, selected: seq<string>, i: nat, j: nat)
    requires i < |groups| && j < |groups[i].skills|
    ensures var chip := RenderGroups(groups, selected)[i].chips[j];
      RenderGroups(groups, Toggle(selected, chip.token))[i].chips[j].selected == !chip.selected
  {
    var chip := RenderGroups(groups, selected)[i].chips[j];
    ToggleFlipsOnlyItsChips(groups, selected, chip.token, i, j);
  }

  /** The panel depends only on which tokens are selected, not on their order or count. */
  lemma {:induction false} PanelUsesSetOfTokens(groups: seq<SkillGroup>, s1: seq<string>, s2: seq<string>)
    requires forall x :: x in s1 <==> x in s2
    ensures RenderGroups(groups, s1) == RenderGroups(groups, s2)
  {
    if groups != [] {
      ChipsUseSetOfTokens(groups[0].skills, s1, s2);
      PanelUsesSetOfTokens(groups[1..], s1, s2);
    }
  }

  lemma {:induction false} ChipsUseSetOfTokens(skills: seq<string>, s1: seq<string>, s2: seq<string>)
    requires forall x :: x in s1 <==> x in s2
    ensures Chips(skills, s1) == Chips(skills, s2)
  {
    if skills != [] {
      ChipsUseSetOfTokens(skills[1..], s1, s2);
    }
  }

  /** With nothing selected no chip is highlighted. */
  lemma NothingSelectedNoFlag(groups: seq<SkillGroup>, i: nat, j: nat)
    requires i < |groups| && j < |groups[i].skills|
    ensures !RenderGroups(groups, [])[i].chips[j].selected
  {
  }
}
