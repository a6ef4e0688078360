/** Sections, groups and fields of the configuration (config/elements.go) as values, and what
    merging them means. */
module Elements {
  import opened Common
  import opened KeyedMerge

  datatype Field = Field(
    id: string, configRoute: string, typ: nat, caption: string, comment: string, tooltip: string,
    sortOrder: int, visible: bool, canBeEmpty: bool, scopes: nat, default: string)

  datatype Group = Group(
    id: string, caption: string, comment: string, scopes: nat, sortOrder: int,
    helpURL: string, moreURL: string, demoLink: string, fields: seq<Field>)

  datatype Section = Section(
    id: string, caption: string, scopes: nat, sortOrder: int, resource: nat, groups: seq<Group>)

  const EMPTY_SECTION := Section("", "", 0, 0, 0, [])

  function Update(f: Field, other: Field): Field {
    f.(typ := if other.typ > 0 then other.typ else f.typ,
       caption := if other.caption != "" then other.caption else f.caption,
       comment := if other.comment != "" then other.comment else f.comment,
       tooltip := if other.tooltip != "" then other.tooltip else f.tooltip,
       scopes := if other.scopes > 0 then other.scopes else f.scopes,
       sortOrder := if other.sortOrder != 0 then other.sortOrder else f.sortOrder,
       visible := other.visible,
       canBeEmpty := other.canBeEmpty,
       default := if other.default != "" then other.default else f.default)
  }

  /** A new field is stored as it is and then updated with itself. */
  function NewField(f: Field): Field { Update(f, f) }

  function FieldID(f: Field): string { f.id }

  const FIELDS: Level<Field> := Level(FieldID, false, NewField, Update)

  function UpdateGroup(g: Group, other: Group): Group {
    g.(caption := if other.caption != "" then other.caption else g.caption,
       comment := if other.comment != "" then other.comment else g.comment,
       scopes := if other.scopes > 0 then other.scopes else g.scopes,
       sortOrder := if other.sortOrder != 0 then other.sortOrder else g.sortOrder,
       fields := Merge(FIELDS, g.fields, other.fields))
  }

  /** A new group is stored as it is and then merged into itself. */
  function NewGroup(g: Group): Group { UpdateGroup(g, g) }

  function GroupID(g: Group): string { g.id }

  const GROUPS: Level<Group> := Level(GroupID, false, NewGroup, UpdateGroup)

  function UpdateSection(s: Section, other: Section): Section {
    s.(id := other.id,
       caption := if other.caption != "" then other.caption else s.caption,
       scopes := if other.scopes > 0 then other.scopes else s.scopes,
       sortOrder := if other.sortOrder != 0 then other.sortOrder else s.sortOrder,
       resource := if other.resource > 0 then other.resource else s.resource,
       groups := Merge(GROUPS, s.groups, other.groups))
  }

  /** A new section is merged into an empty one. */
  function NewSection(s: Section): Section { UpdateSection(EMPTY_SECTION, s) }

  function SectionID(s: Section): string { s.id }

  const SECTIONS: Level<Section> := Level(SectionID, true, NewSection, UpdateSection)

  // ---- which inputs make up a field ----

  function GroupIn(o: Option<Section>, g: string): Option<Group> {
    if o.None? then None else At(GROUPS, o.value.groups, g)
  }

  function FieldIn(o: Option<Group>, f: string): Option<Field> {
    if o.None? then None else At(FIELDS, o.value.fields, f)
  }

  function FieldAt(ss: seq<Section>, s: string, g: string, f: string): Option<Field> {
    FieldIn(GroupIn(At(SECTIONS, ss, s), g), f)
  }

  /** All groups with the id in the sections, in order. */
  function GroupInputs(ss: seq<Section>, g: string): seq<Group> {
    if ss == [] then [] else GroupInputs(ss[..|ss| - 1], g) + Having(GROUPS, ss[|ss| - 1].groups, g)
  }

  /** All fields with the id in the groups, in order. */
  function FieldInputs(gs: seq<Group>, f: string): seq<Field> {
    if gs == [] then [] else FieldInputs(gs[..|gs| - 1], f) + Having(FIELDS, gs[|gs| - 1].fields, f)
  }

  /** All fields with the path s/g/f in the sections, in order. */
  function Inputs(ss: seq<Section>, s: string, g: string, f: string): seq<Field> {
    FieldInputs(GroupInputs(Having(SECTIONS, ss, s), g), f)
  }

  lemma SelfMerge(fs: seq<Field>, f: string)
    requires f != ""
    ensures At(FIELDS, Merge(FIELDS, fs, fs), f) == Fold(FIELDS, None, Having(FIELDS, fs, f))
  {
    MergeAt(FIELDS, fs, fs, f);
    HavingFirst(FIELDS, fs, f);
    if Having(FIELDS, fs, f) != [] { FoldFirst(FIELDS, Having(FIELDS, fs, f)); }
  }

  lemma {:induction false} FoldedGroups(o: Option<Group>, gs: seq<Group>, f: string)
    requires f != ""
    ensures FieldIn(Fold(GROUPS, o, gs), f) == Fold(FIELDS, FieldIn(o, f), FieldInputs(gs, f))
  {
    if gs == [] {
    } else {
      var before, g := gs[..|gs| - 1], gs[|gs| - 1];
      FoldedGroups(o, before, f);
      FoldSum(FIELDS, FieldIn(o, f), FieldInputs(before, f), Having(FIELDS, g.fields, f));
      var prior := Fold(GROUPS, o, before);
      if prior.None? {
        SelfMerge(g.fields, f);
      } else {
        MergeAt(FIELDS, prior.value.fields, g.fields, f);
      }
    }
  }

  lemma {:induction false} FoldedSections(o: Option<Section>, ss: seq<Section>, g: string)
    requires g != ""
    ensures GroupIn(Fold(SECTIONS, o, ss), g) == Fold(GROUPS, GroupIn(o, g), GroupInputs(ss, g))
  {
    if ss == [] {
    } else {
      var before, s := ss[..|ss| - 1], ss[|ss| - 1];
      FoldedSections(o, before, g);
      FoldSum(GROUPS, GroupIn(o, g), GroupInputs(before, g), Having(GROUPS, s.groups, g));
      var prior := Fold(SECTIONS, o, before);
      MergeAt(GROUPS, if prior.None? then [] else prior.value.groups, s.groups, g);
    }
  }

  /** After a merge the field with a path is the one that was there, updated by exactly the
      merged fields with that path, in order, wherever they were nested. */
  lemma MergedField(ss: seq<Section>, more: seq<Section>, s: string, g: string, f: string)
    requires g != "" && f != ""
    ensures FieldAt(Merge(SECTIONS, ss, more), s, g, f) == Fold(FIELDS, FieldAt(ss, s, g, f), Inputs(more, s, g, f))
  {
    MergeAt(SECTIONS, ss, more, s);
    FoldedSections(At(SECTIONS, ss, s), Having(SECTIONS, more, s), g);
    FoldedGroups(GroupIn(At(SECTIONS, ss, s), g), GroupInputs(Having(SECTIONS, more, s), g), f);
  }

  // ---- last non-empty wins ----

  /** The last value that is not empty. */
  function Last<T(==)>(xs: seq<T>, empty: T): T {
    if xs == [] then empty
    else if xs[|xs| - 1] != empty then xs[|xs| - 1]
    else Last(xs[..|xs| - 1], empty)
  }

  datatype FieldText = FieldLabel | FieldComment | FieldTooltip | FieldDefault
  datatype FieldNumber = FieldType | FieldScopes | FieldSortOrder

  function TextOf(f: Field, a: FieldText): string {
    match a
    case FieldLabel => f.caption
    case FieldComment => f.comment
    case FieldTooltip => f.tooltip
    case FieldDefault => f.default
  }

  function NumberOf(f: Field, a: FieldNumber): int {
    match a case FieldType => f.typ case FieldScopes => f.scopes case FieldSortOrder => f.sortOrder
  }

  function Texts(fs: seq<Field>, a: FieldText): seq<string> {
    seq(|fs|, i requires 0 <= i < |fs| => TextOf(fs[i], a))
  }

  function Numbers(fs: seq<Field>, a: FieldNumber): seq<int> {
    seq(|fs|, i requires 0 <= i < |fs| => NumberOf(fs[i], a))
  }

  lemma {:induction false} FoldedText(fs: seq<Field>, a: FieldText)
    requires fs != []
    ensures Fold(FIELDS, None, fs).Some? && TextOf(Fold(FIELDS, None, fs).value, a) == Last(Texts(fs, a), "")
  {
    var before := fs[..|fs| - 1];
    assert Texts(fs, a)[..|fs| - 1] == Texts(before, a);
    if before == [] {
    } else {
      FoldedText(before, a);
    }
  }

  lemma {:induction false} FoldedNumber(fs: seq<Field>, a: FieldNumber)
    requires fs != []
    ensures Fold(FIELDS, None, fs).Some? && NumberOf(Fold(FIELDS, None, fs).value, a) == Last(Numbers(fs, a), 0)
  {
    var before := fs[..|fs| - 1];
    assert Numbers(fs, a)[..|fs| - 1] == Numbers(before, a);
    if before == [] {
    } else {
      FoldedNumber(before, a);
    }
  }

  lemma {:induction false} FoldedFlags(fs: seq<Field>)
    requires fs != []
    ensures var r := Fold(FIELDS, None, fs);
            && r.Some? && r.value.id == fs[0].id && r.value.configRoute == fs[0].configRoute
            && r.value.visible == fs[|fs| - 1].visible && r.value.canBeEmpty == fs[|fs| - 1].canBeEmpty
  {
    if |fs| > 1 { FoldedFlags(fs[..|fs| - 1]); } else { assert fs[..0] == []; }
  }

  /** Every attribute of a merged field: the last non-empty value given for its path, the last
      value for the two flags, and the first storage route. */
  lemma LastNonEmptyWins(more: seq<Section>, s: string, g: string, f: string)
    requires g != "" && f != "" && Inputs(more, s, g, f) != []
    ensures var fs, r := Inputs(more, s, g, f), FieldAt(Merge(SECTIONS, [], more), s, g, f);
            && r.Some?
            && (forall a :: TextOf(r.value, a) == Last(Texts(fs, a), ""))
            && (forall a :: NumberOf(r.value, a) == Last(Numbers(fs, a), 0))
            && r.value.visible == fs[|fs| - 1].visible && r.value.canBeEmpty == fs[|fs| - 1].canBeEmpty
            && r.value.configRoute == fs[0].configRoute
  {
    hide Update, Last, Texts, Numbers, TextOf, NumberOf;
    MergedField([], more, s, g, f);
    var fs := Inputs(more, s, g, f);
    FoldedFlags(fs);
    forall a ensures TextOf(Fold(FIELDS, None, fs).value, a) == Last(Texts(fs, a), "") { FoldedText(fs, a); }
    forall a ensures NumberOf(Fold(FIELDS, None, fs).value, a) == Last(Numbers(fs, a), 0) { FoldedNumber(fs, a); }
  }

  datatype GroupText = GroupLabel | GroupComment
  datatype GroupNumber = GroupScopes | GroupSortOrder

  function GroupTextOf(g: Group, a: GroupText): string {
    match a case GroupLabel => g.caption case GroupComment => g.comment
  }

  function GroupNumberOf(g: Group, a: GroupNumber): int {
    match a case GroupScopes => g.scopes case GroupSortOrder => g.sortOrder
  }

  function GroupTexts(gs: seq<Group>, a: GroupText): seq<string> {
    seq(|gs|, i requires 0 <= i < |gs| => GroupTextOf(gs[i], a))
  }

  function GroupNumbers(gs: seq<Group>, a: GroupNumber): seq<int> {
    seq(|gs|, i requires 0 <= i < |gs| => GroupNumberOf(gs[i], a))
  }

  lemma {:induction false} FoldedGroupText(gs: seq<Group>, a: GroupText)
    requires gs != []
    ensures Fold(GROUPS, None, gs).Some? && GroupTextOf(Fold(GROUPS, None, gs).value, a) == Last(GroupTexts(gs, a), "")
  {
    var before := gs[..|gs| - 1];
    assert GroupTexts(gs, a)[..|gs| - 1] == GroupTexts(before, a);
    if before == [] {
    } else {
      FoldedGroupText(before, a);
    }
  }

  lemma {:induction false} FoldedGroupNumber(gs: seq<Group>, a: GroupNumber)
    requires gs != []
    ensures Fold(GROUPS, None, gs).Some? &&
            GroupNumberOf(Fold(GROUPS, None, gs).value, a) == Last(GroupNumbers(gs, a), 0)
  {
    var before := gs[..|gs| - 1];
    assert GroupNumbers(gs, a)[..|gs| - 1] == GroupNumbers(before, a);
    if before == [] {
    } else {
      FoldedGroupNumber(before, a);
    }
  }

  lemma {:induction false} FoldedGroupLinks(gs: seq<Group>)
    requires gs != []
    ensures var r := Fold(GROUPS, None, gs);
            r.Some? && r.value.helpURL == gs[0].helpURL && r.value.moreURL == gs[0].moreURL &&
              r.value.demoLink == gs[0].demoLink
  {
    if |gs| > 1 { FoldedGroupLinks(gs[..|gs| - 1]); } else { assert gs[..0] == []; }
  }

  /** The same for the groups; their three links stay those of the first one. */
  lemma LastNonEmptyGroupWins(more: seq<Section>, s: string, g: string)
    requires g != "" && GroupInputs(Having(SECTIONS, more, s), g) != []
    ensures var gs := GroupInputs(Having(SECTIONS, more, s), g);
            var r := GroupIn(At(SECTIONS, Merge(SECTIONS, [], more), s), g);
            && r.Some?
            && (forall a :: GroupTextOf(r.value, a) == Last(GroupTexts(gs, a), ""))
            && (forall a :: GroupNumberOf(r.value, a) == Last(GroupNumbers(gs, a), 0))
            && r.value.helpURL == gs[0].helpURL && r.value.moreURL == gs[0].moreURL &&
              r.value.demoLink == gs[0].demoLink
  {
    MergeAt(SECTIONS, [], more, s);
    FoldedSections(None, Having(SECTIONS, more, s), g);
    var gs := GroupInputs(Having(SECTIONS, more, s), g);
    FoldedGroupLinks(gs);
    forall a
      ensures GroupTextOf(Fold(GROUPS, None, gs).value, a) == Last(GroupTexts(gs, a), "")
    {
      FoldedGroupText(gs, a);
    }
    forall a
      ensures GroupNumberOf(Fold(GROUPS, None, gs).value, a) == Last(GroupNumbers(gs, a), 0)
    {
      FoldedGroupNumber(gs, a);
    }
  }

  datatype SectionNumber = SectionScopes | SectionSortOrder | SectionResource

  function SectionNumberOf(s: Section, a: SectionNumber): int {
    match a case SectionScopes => s.scopes case SectionSortOrder => s.sortOrder case SectionResource => s.resource
  }

  function SectionNumbers(ss: seq<Section>, a: SectionNumber): seq<int> {
    seq(|ss|, i requires 0 <= i < |ss| => SectionNumberOf(ss[i], a))
  }

  function SectionLabels(ss: seq<Section>): seq<string> {
    seq(|ss|, i requires 0 <= i < |ss| => ss[i].caption)
  }

  lemma {:induction false} FoldedSectionLabel(ss: seq<Section>)
    requires ss != []
    ensures Fold(SECTIONS, None, ss).Some? && Fold(SECTIONS, None, ss).value.caption == Last(SectionLabels(ss), "")
  {
    hide Merge;
    var before := ss[..|ss| - 1];
    assert SectionLabels(ss)[..|ss| - 1] == SectionLabels(before);
    if before == [] {
    } else {
      FoldedSectionLabel(before);
    }
  }

  lemma {:induction false} FoldedSectionNumber(ss: seq<Section>, a: SectionNumber)
    requires ss != []
    ensures Fold(SECTIONS, None, ss).Some? &&
            SectionNumberOf(Fold(SECTIONS, None, ss).value, a) == Last(SectionNumbers(ss, a), 0)
  {
    hide Merge;
    var before := ss[..|ss| - 1];
    assert SectionNumbers(ss, a)[..|ss| - 1] == SectionNumbers(before, a);
    if before == [] {
    } else {
      FoldedSectionNumber(before, a);
    }
  }

  /** The same for the sections. */
  lemma LastNonEmptySectionWins(more: seq<Section>, s: string)
    requires Having(SECTIONS, more, s) != []
    ensures var ss, r := Having(SECTIONS, more, s), At(SECTIONS, Merge(SECTIONS, [], more), s);
            && r.Some? && r.value.caption == Last(SectionLabels(ss), "")
            && (forall a :: SectionNumberOf(r.value, a) == Last(SectionNumbers(ss, a), 0))
  {
    MergeAt(SECTIONS, [], more, s);
    var ss := Having(SECTIONS, more, s);
    FoldedSectionLabel(ss);
    forall a
      ensures SectionNumberOf(Fold(SECTIONS, None, ss).value, a) == Last(SectionNumbers(ss, a), 0)
    {
      FoldedSectionNumber(ss, a);
    }
  }

  // ---- ids and paths ----

  predicate HasField(fs: seq<Field>, f: string) { exists i :: 0 <= i < |fs| && fs[i].id == f }

  predicate HasPair(gs: seq<Group>, g: string, f: string) {
    exists i :: 0 <= i < |gs| && gs[i].id == g && HasField(gs[i].fields, f)
  }

  predicate HasPath(ss: seq<Section>, s: string, g: string, f: string) {
    exists i :: 0 <= i < |ss| && ss[i].id == s && HasPair(ss[i].groups, g, f)
  }

  lemma MergedFieldID(fs: seq<Field>, x: Field, f: string)
    ensures HasField(MergeOne(FIELDS, fs, x), f) <==> HasField(fs, f) || x.id == f
  {
    var ys := MergeOne(FIELDS, fs, x);
    assert forall k | 0 <= k < |fs| :: ys[k].id == fs[k].id;
    if Index(FIELDS, fs, x.id) == -1 { assert ys[|fs|].id == x.id; }
    if HasField(fs, f) {
      var k :| 0 <= k < |fs| && fs[k].id == f;
      assert ys[k].id == f;
    }
  }

  lemma {:induction false} MergedFieldIDs(fs: seq<Field>, more: seq<Field>, f: string)
    ensures HasField(Merge(FIELDS, fs, more), f) <==> HasField(fs, f) || HasField(more, f)
  {
    if more == [] {
    } else {
      var before, x := more[..|more| - 1], more[|more| - 1];
      MergedFieldIDs(fs, before, f);
      MergedFieldID(Merge(FIELDS, fs, before), x, f);
      assert HasField(more, f) <==> HasField(before, f) || x.id == f;
    }
  }

  lemma MergedPair(gs: seq<Group>, x: Group, g: string, f: string)
    ensures HasPair(MergeOne(GROUPS, gs, x), g, f) <==> HasPair(gs, g, f) || (x.id == g && HasField(x.fields, f))
  {
    hide HasField;
    var ys := MergeOne(GROUPS, gs, x);
    var i := Index(GROUPS, gs, x.id);
    if i == -1 {
      MergedFieldIDs(x.fields, x.fields, f);
      assert ys[|gs|] == NewGroup(x) && forall k | 0 <= k < |gs| :: ys[k] == gs[k];
    } else {
      MergedFieldIDs(gs[i].fields, x.fields, f);
      assert ys[i] == UpdateGroup(gs[i], x);
      assert forall k | 0 <= k < |gs| && k != i :: ys[k] == gs[k];
      if x.id == g { assert ys[i].id == g; }
    }
  }

  lemma {:induction false} MergedPairs(gs: seq<Group>, more: seq<Group>, g: string, f: string)
    ensures HasPair(Merge(GROUPS, gs, more), g, f) <==> HasPair(gs, g, f) || HasPair(more, g, f)
  {
    hide HasField;
    if more == [] {
    } else {
      var before, x := more[..|more| - 1], more[|more| - 1];
      MergedPairs(gs, before, g, f);
      MergedPair(Merge(GROUPS, gs, before), x, g, f);
    }
  }

  lemma MergedPath(ss: seq<Section>, x: Section, s: string, g: string, f: string)
    ensures HasPath(MergeOne(SECTIONS, ss, x), s, g, f) <==>
            HasPath(ss, s, g, f) || (x.id == s && HasPair(x.groups, g, f))
  {
    hide HasPair;
    var ys := MergeOne(SECTIONS, ss, x);
    var i := Index(SECTIONS, ss, x.id);
    if i == -1 {
      MergedPairs([], x.groups, g, f);
      NoPair(g, f);
      assert ys[|ss|] == NewSection(x) && forall k | 0 <= k < |ss| :: ys[k] == ss[k];
    } else {
      MergedPairs(ss[i].groups, x.groups, g, f);
      assert ys[i] == UpdateSection(ss[i], x);
      assert forall k | 0 <= k < |ss| && k != i :: ys[k] == ss[k];
    }
  }

  lemma NoPair(g: string, f: string)
    ensures !HasPair([], g, f)
  {
  }

  /** The paths after a merge are exactly the paths before it and the merged ones. */
  lemma {:induction false} MergedPaths(ss: seq<Section>, more: seq<Section>, s: string, g: string, f: string)
    ensures HasPath(Merge(SECTIONS, ss, more), s, g, f) <==> HasPath(ss, s, g, f) || HasPath(more, s, g, f)
  {
    hide HasPair;
    if more == [] {
    } else {
      var before, x := more[..|more| - 1], more[|more| - 1];
      MergedPaths(ss, before, s, g, f);
      MergedPath(Merge(SECTIONS, ss, before), x, s, g, f);
    }
  }

  /** No two sections, no two groups of a section and no two fields of a group share an id. */
  ghost predicate GroupsUnique(gs: seq<Group>) {
    Unique(GROUPS, gs) && forall g | g in gs :: Unique(FIELDS, g.fields)
  }

  ghost predicate AllUnique(ss: seq<Section>) {
    Unique(SECTIONS, ss) && forall s | s in ss :: GroupsUnique(s.groups)
  }

  predicate NamedFields(fs: seq<Field>) { forall i | 0 <= i < |fs| :: fs[i].id != "" }

  /** Groups and fields have ids. */
  predicate Named(ss: seq<Section>) {
    forall s, g | s in ss && g in s.groups :: g.id != "" && NamedFields(g.fields)
  }

  ghost predicate FieldsUnique(ss: seq<Section>) {
    forall s, g | s in ss && g in s.groups :: Unique(FIELDS, g.fields)
  }

  lemma {:induction false} MergedGroupsUnique(gs: seq<Group>, more: seq<Group>)
    requires GroupsUnique(gs)
    requires forall g | g in more :: g.id != "" && NamedFields(g.fields) && Unique(FIELDS, g.fields)
    ensures GroupsUnique(Merge(GROUPS, gs, more))
  {
    MergeUnique(GROUPS, gs, more);
    if more == [] {
    } else {
      var before, x := more[..|more| - 1], more[|more| - 1];
      assert x in more;
      MergedGroupsUnique(gs, before);
      var xs := Merge(GROUPS, gs, before);
      var i := Index(GROUPS, xs, x.id);
      MergeUnique(FIELDS, if i == -1 then x.fields else xs[i].fields, x.fields);
    }
  }

  lemma {:induction false} MergedUnique(ss: seq<Section>, more: seq<Section>)
    requires AllUnique(ss) && Named(more) && FieldsUnique(more)
    ensures AllUnique(Merge(SECTIONS, ss, more))
  {
    hide GroupsUnique;
    MergeUnique(SECTIONS, ss, more);
    if more == [] {
    } else {
      var before, x := more[..|more| - 1], more[|more| - 1];
      assert x in more;
      MergedUnique(ss, before);
      var xs := Merge(SECTIONS, ss, before);
      var i := Index(SECTIONS, xs, x.id);
      assert GroupsUnique([]) by { NoGroups(); }
      MergedGroupsUnique(if i == -1 then [] else xs[i].groups, x.groups);
    }
  }

  lemma NoGroups()
    ensures GroupsUnique([])
  {
  }

  // ---- repeated field ids ----

  lemma {:induction false} FoldedUnique(gs: seq<Group>)
    requires gs != [] && forall i | 0 <= i < |gs| :: NamedFields(gs[i].fields)
    ensures Fold(GROUPS, None, gs).Some?
    ensures Unique(FIELDS, Fold(GROUPS, None, gs).value.fields) <==> Unique(FIELDS, gs[0].fields)
  {
    hide Unique, Merge;
    var before, g := gs[..|gs| - 1], gs[|gs| - 1];
    if before == [] {
      MergeUnique(FIELDS, g.fields, g.fields);
    } else {
      FoldedUnique(before);
      MergeUnique(FIELDS, Fold(GROUPS, None, before).value.fields, g.fields);
    }
  }

  lemma {:induction false} GroupInputsAre(ss: seq<Section>, g: string)
    ensures forall x :: x in GroupInputs(ss, g) <==> exists i :: 0 <= i < |ss| && x in ss[i].groups && x.id == g
  {
    if ss == [] {
    } else {
      GroupInputsAre(ss[..|ss| - 1], g);
      HavingAre(GROUPS, ss[|ss| - 1].groups, g);
    }
  }

  lemma {:induction false} FieldInputsAre(gs: seq<Group>, f: string)
    ensures forall x :: x in FieldInputs(gs, f) <==> exists i :: 0 <= i < |gs| && x in gs[i].fields && x.id == f
  {
    if gs == [] {
    } else {
      FieldInputsAre(gs[..|gs| - 1], f);
      HavingAre(FIELDS, gs[|gs| - 1].fields, f);
    }
  }

  lemma PathHasInputs(ss: seq<Section>, s: string, g: string, f: string)
    requires HasPath(ss, s, g, f)
    ensures Inputs(ss, s, g, f) != []
  {
    hide Having, GroupInputs, FieldInputs;
    var xs := Having(SECTIONS, ss, s);
    var gs := GroupInputs(xs, g);
    HavingAre(SECTIONS, ss, s);
    GroupInputsAre(xs, g);
    FieldInputsAre(gs, f);
    var i :| 0 <= i < |ss| && ss[i].id == s && HasPair(ss[i].groups, g, f);
    var j :| 0 <= j < |ss[i].groups| && ss[i].groups[j].id == g && HasField(ss[i].groups[j].fields, f);
    var k :| 0 <= k < |ss[i].groups[j].fields| && ss[i].groups[j].fields[k].id == f;
    assert ss[i] in xs && ss[i].groups[j] in gs && ss[i].groups[j].fields[k] in FieldInputs(gs, f);
  }

  lemma InputsHavePath(ss: seq<Section>, s: string, g: string, f: string)
    requires Inputs(ss, s, g, f) != []
    ensures HasPath(ss, s, g, f)
  {
    var xs := Having(SECTIONS, ss, s);
    var gs := GroupInputs(xs, g);
    HavingAre(SECTIONS, ss, s);
    GroupInputsAre(xs, g);
    FieldInputsAre(gs, f);
    var x := Inputs(ss, s, g, f)[0];
    assert x in FieldInputs(gs, f);
    var j :| 0 <= j < |gs| && x in gs[j].fields && x.id == f;
    assert gs[j] in gs;
    var i :| 0 <= i < |xs| && gs[j] in xs[i].groups && gs[j].id == g;
    assert HasField(gs[j].fields, f) && HasPair(xs[i].groups, g, f) && xs[i] in xs;
  }

  ghost predicate GroupIDsUnique(ss: seq<Section>) {
    forall i | 0 <= i < |ss| :: Unique(GROUPS, ss[i].groups)
  }

  lemma {:induction false} MergedGroupIDs(more: seq<Section>)
    requires Named(more)
    ensures GroupIDsUnique(Merge(SECTIONS, [], more))
  {
    if more == [] {
    } else {
      var before, x := more[..|more| - 1], more[|more| - 1];
      assert x in more;
      MergedGroupIDs(before);
      var xs := Merge(SECTIONS, [], before);
      var i := Index(SECTIONS, xs, x.id);
      MergeUnique(GROUPS, if i == -1 then [] else xs[i].groups, x.groups);
    }
  }

  /** The group that is stored first under a path. */
  ghost predicate FirstIsUnique(more: seq<Section>, s: string, g: string) {
    var gs := GroupInputs(Having(SECTIONS, more, s), g);
    gs == [] || Unique(FIELDS, gs[0].fields)
  }

  lemma StoredFirst(more: seq<Section>, s: string, g: string)
    requires Named(more) && g != ""
    ensures var o := GroupIn(At(SECTIONS, Merge(SECTIONS, [], more), s), g);
            FirstIsUnique(more, s, g) <==> o.None? || Unique(FIELDS, o.value.fields)
  {
    hide Unique;
    var xs := Having(SECTIONS, more, s);
    var gs := GroupInputs(xs, g);
    MergeAt(SECTIONS, [], more, s);
    FoldedSections(None, xs, g);
    HavingAre(SECTIONS, more, s);
    GroupInputsAre(xs, g);
    forall i | 0 <= i < |gs| ensures NamedFields(gs[i].fields) {
      assert gs[i] in gs;
      var k :| 0 <= k < |xs| && gs[i] in xs[k].groups && gs[i].id == g;
      assert xs[k] in xs;
    }
    if gs != [] { FoldedUnique(gs); }
  }

  predicate GroupsNamed(gs: seq<Group>) { forall i | 0 <= i < |gs| :: gs[i].id != "" }

  lemma {:induction false} MergedGroupsNamed(gs: seq<Group>, more: seq<Group>)
    requires GroupsNamed(gs) && GroupsNamed(more)
    ensures GroupsNamed(Merge(GROUPS, gs, more))
  {
    if more == [] {
    } else {
      MergedGroupsNamed(gs, more[..|more| - 1]);
    }
  }

  lemma {:induction false} MergedNamed(more: seq<Section>)
    requires Named(more)
    ensures forall i | 0 <= i < |Merge(SECTIONS, [], more)| :: GroupsNamed(Merge(SECTIONS, [], more)[i].groups)
  {
    if more == [] {
    } else {
      var before, x := more[..|more| - 1], more[|more| - 1];
      assert x in more && GroupsNamed(x.groups);
      MergedNamed(before);
      var xs := Merge(SECTIONS, [], before);
      var i := Index(SECTIONS, xs, x.id);
      MergedGroupsNamed(if i == -1 then [] else xs[i].groups, x.groups);
    }
  }

  /** Merging named sections always leaves section and group ids unique; field ids are unique
      exactly if they are so in the first group given for each path, because a stored group
      keeps whatever it came with. */
  lemma UniqueExactlyIf(more: seq<Section>)
    requires Named(more)
    ensures Unique(SECTIONS, Merge(SECTIONS, [], more)) && GroupIDsUnique(Merge(SECTIONS, [], more))
    ensures FieldsUnique(Merge(SECTIONS, [], more)) <==> forall s, g | g != "" :: FirstIsUnique(more, s, g)
  {
    hide Merge, FirstIsUnique;
    var r := Merge(SECTIONS, [], more);
    MergeUnique(SECTIONS, [], more);
    assert Unique(SECTIONS, r);
    MergedGroupIDs(more);
    MergedNamed(more);
    forall s, g | g != ""
      ensures FirstIsUnique(more, s, g) <==>
                var o := GroupIn(At(SECTIONS, r, s), g); o.None? || Unique(FIELDS, o.value.fields)
    {
      StoredFirst(more, s, g);
    }
    forall i, j | 0 <= i < |r| && 0 <= j < |r[i].groups|
      ensures r[i].groups[j].id != "" && GroupIn(At(SECTIONS, r, r[i].id), r[i].groups[j].id) == Some(r[i].groups[j])
    {
      UniqueAt(SECTIONS, r, i);
      UniqueAt(GROUPS, r[i].groups, j);
    }
    if forall s, g | g != "" :: FirstIsUnique(more, s, g) {
      forall i, j | 0 <= i < |r| && 0 <= j < |r[i].groups|
        ensures Unique(FIELDS, r[i].groups[j].fields)
      {
        assert FirstIsUnique(more, r[i].id, r[i].groups[j].id);
      }
    }
  }

  /** It does fail: a group given with a repeated field id keeps both fields. */
  lemma RepeatedFieldStays()
    ensures var f := Field("f", "", 0, "", "", "", 0, false, false, 0, "");
            var g := Group("g", "", "", 0, 0, "", "", "", [f, f]);
            !FieldsUnique(Merge(SECTIONS, [], [EMPTY_SECTION.(id := "s", groups := [g])]))
  {
    var f := Field("f", "", 0, "", "", "", 0, false, false, 0, "");
    var g := Group("g", "", "", 0, 0, "", "", "", [f, f]);
    var s := EMPTY_SECTION.(id := "s", groups := [g]);
    UniqueExactlyIf([s]);
    assert !FirstIsUnique([s], "s", "g") by {
      assert [s][..0] == [] && [g][..0] == [];
      assert Having(SECTIONS, [s], "s") == [s];
      assert Having(GROUPS, [g], "g") == [g];
      assert GroupInputs([s], "g") == [g];
      assert FIELDS.id(g.fields[0]) == FIELDS.id(g.fields[1]);
    }
  }
}
