/** When merged sections have unique ids at every level (config/elements.go), for all inputs,
    elements without id included. */
module ElementIDs {
  import opened Common
  import opened KeyedMerge
  import opened Elements

  /** How many fields of a group have no id. */
  function UnnamedIn(fs: seq<Field>): nat { |Having(FIELDS, fs, "")| }

  /** How many fields of the groups have no id. */
  function UnnamedOf(gs: seq<Group>): nat {
    if gs == [] then 0 else UnnamedOf(gs[..|gs| - 1]) + UnnamedIn(gs[|gs| - 1].fields)
  }

  /** Storing a group doubles its fields without id, merging one adds them. */
  lemma {:induction false} FoldedUnnamed(gs: seq<Group>)
    requires gs != []
    ensures Fold(GROUPS, None, gs).Some?
    ensures UnnamedIn(Fold(GROUPS, None, gs).value.fields) == UnnamedIn(gs[0].fields) + UnnamedOf(gs)
  {
    hide Merge, Having;
    var before, g := gs[..|gs| - 1], gs[|gs| - 1];
    FirstsLength(FIELDS, Having(FIELDS, g.fields, ""));
    if before == [] {
      UnnamedPileUp(FIELDS, g.fields, g.fields);
    } else {
      FoldedUnnamed(before);
      UnnamedPileUp(FIELDS, Fold(GROUPS, None, before).value.fields, g.fields);
    }
  }

  lemma {:induction false} UnnamedAfterFirst(gs: seq<Group>)
    requires gs != []
    ensures UnnamedOf(gs) == UnnamedIn(gs[0].fields) + UnnamedOf(gs[1..])
  {
    if |gs| == 1 {
      assert gs[..0] == [] && gs[1..] == [];
    } else {
      UnnamedAfterFirst(gs[..|gs| - 1]);
      assert gs[1..][..|gs| - 2] == gs[..|gs| - 1][1..];
    }
  }

  /** The groups given for one path leave unique field ids exactly if the first one has unique
      ids and no field without one, and the others together at most one such field. */
  ghost predicate FieldsFit(gs: seq<Group>)
    requires gs != []
  {
    Unique(FIELDS, gs[0].fields) && UnnamedIn(gs[0].fields) == 0 && UnnamedOf(gs[1..]) <= 1
  }

  lemma {:induction false} FoldedUniqueIff(gs: seq<Group>)
    requires gs != []
    ensures Fold(GROUPS, None, gs).Some?
    ensures Unique(FIELDS, Fold(GROUPS, None, gs).value.fields) <==> FieldsFit(gs)
  {
    hide Unique, Merge, UnnamedIn, UnnamedOf;
    var before, g := gs[..|gs| - 1], gs[|gs| - 1];
    if before == [] {
      MergeUniqueIff(FIELDS, g.fields, g.fields);
      CountOne(g);
      assert gs[1..] == [];
    } else {
      FoldedUniqueIff(before);
      FoldedUnnamed(before);
      UnnamedAfterFirst(before);
      MergeUniqueIff(FIELDS, Fold(GROUPS, None, before).value.fields, g.fields);
      CountNext(Fold(GROUPS, None, before).value.fields, g, gs);
    }
  }

  lemma CountOne(g: Group)
    ensures |Having(FIELDS, g.fields, "")| == UnnamedIn(g.fields) && UnnamedOf([]) == 0
  {
  }

  lemma CountNext(fs: seq<Field>, g: Group, gs: seq<Group>)
    requires |gs| > 1 && g == gs[|gs| - 1]
    ensures |Having(FIELDS, fs, "")| == UnnamedIn(fs) && |Having(FIELDS, g.fields, "")| == UnnamedIn(g.fields)
    ensures UnnamedOf(gs[1..]) == UnnamedOf(gs[..|gs| - 1][1..]) + UnnamedIn(g.fields)
  {
    assert gs[1..][..|gs| - 2] == gs[..|gs| - 1][1..];
  }

  /** Every group without id is stored on its own. */
  lemma {:induction false} FoldedUnnamedGroups(ss: seq<Section>)
    requires ss != []
    ensures Fold(SECTIONS, None, ss).Some?
    ensures Having(GROUPS, Fold(SECTIONS, None, ss).value.groups, "") == Firsts(GROUPS, GroupInputs(ss, ""))
  {
    hide Merge, Firsts;
    var before, s := ss[..|ss| - 1], ss[|ss| - 1];
    FirstsSum(GROUPS, GroupInputs(before, ""), Having(GROUPS, s.groups, ""));
    FirstsLength(GROUPS, []);
    if before == [] {
      UnnamedPileUp(GROUPS, [], s.groups);
    } else {
      FoldedUnnamedGroups(before);
      UnnamedPileUp(GROUPS, Fold(SECTIONS, None, before).value.groups, s.groups);
    }
  }

  lemma {:induction false} FoldedGroupIDs(ss: seq<Section>)
    requires ss != []
    ensures Fold(SECTIONS, None, ss).Some?
    ensures Unique(GROUPS, Fold(SECTIONS, None, ss).value.groups) <==> |GroupInputs(ss, "")| <= 1
  {
    hide Merge, Unique, Firsts;
    var before, s := ss[..|ss| - 1], ss[|ss| - 1];
    if before == [] {
      MergeUniqueIff(GROUPS, [], s.groups);
      assert Unique(GROUPS, []) by { NothingTwice(); }
    } else {
      FoldedGroupIDs(before);
      FoldedUnnamedGroups(before);
      FirstsLength(GROUPS, GroupInputs(before, ""));
      MergeUniqueIff(GROUPS, Fold(SECTIONS, None, before).value.groups, s.groups);
    }
  }

  lemma NothingTwice()
    ensures Unique(GROUPS, [])
  {
  }

  /** What the groups given with one id must be like. */
  ghost predicate PathFits(ss: seq<Section>, g: string) {
    var gs := GroupInputs(ss, g);
    gs == [] || (FieldsFit(gs) && (g == "" ==> |gs| <= 1))
  }

  lemma FoldOne(x: Group)
    ensures Fold(GROUPS, None, [x]) == Some(NewGroup(x)) && Firsts(GROUPS, [x]) == [NewGroup(x)]
  {
    assert [x][..0] == [];
  }

  /** A group of the stored section, in terms of what was given for its id. */
  lemma StoredGroup(ss: seq<Section>, x: Group)
    requires ss != [] && Fold(SECTIONS, None, ss).Some? && x in Fold(SECTIONS, None, ss).value.groups
    requires Unique(GROUPS, Fold(SECTIONS, None, ss).value.groups)
    ensures GroupInputs(ss, x.id) != [] && Fold(GROUPS, None, GroupInputs(ss, x.id)) == Some(x)
  {
    hide Merge, Firsts, Fold;
    var groups := Fold(SECTIONS, None, ss).value.groups;
    var gs := GroupInputs(ss, x.id);
    if x.id == "" {
      FoldedUnnamedGroups(ss);
      FoldedGroupIDs(ss);
      FirstsLength(GROUPS, gs);
      HavingAre(GROUPS, groups, "");
      assert x in Having(GROUPS, groups, "");
      assert gs == [gs[0]];
      FoldOne(gs[0]);
    } else {
      var j :| 0 <= j < |groups| && groups[j] == x;
      UniqueAt(GROUPS, groups, j);
      FoldedSections(None, ss, x.id);
      FoldSome(GROUPS, None, gs);
    }
  }

  /** And the other way round. */
  lemma GivenGroup(ss: seq<Section>, g: string)
    requires ss != [] && GroupInputs(ss, g) != [] && (g == "" ==> |GroupInputs(ss, g)| <= 1)
    ensures Fold(SECTIONS, None, ss).Some? && Fold(GROUPS, None, GroupInputs(ss, g)).Some?
    ensures Fold(GROUPS, None, GroupInputs(ss, g)).value in Fold(SECTIONS, None, ss).value.groups
  {
    hide Merge, Firsts, Fold;
    FoldSome(SECTIONS, None, ss);
    var groups := Fold(SECTIONS, None, ss).value.groups;
    var gs := GroupInputs(ss, g);
    FoldSome(GROUPS, None, gs);
    if g == "" {
      FoldedUnnamedGroups(ss);
      HavingAre(GROUPS, groups, "");
      assert gs == [gs[0]];
      FoldOne(gs[0]);
      assert Having(GROUPS, groups, "")[0] in Having(GROUPS, groups, "");
    } else {
      FoldedSections(None, ss, g);
    }
  }

  lemma SectionUniqueIff(ss: seq<Section>)
    requires ss != []
    ensures Fold(SECTIONS, None, ss).Some?
    ensures GroupsUnique(Fold(SECTIONS, None, ss).value.groups) <==> forall g :: PathFits(ss, g)
  {
    hide Unique, Fold, FieldsFit, GroupInputs;
    FoldedGroupIDs(ss);
    var groups := Fold(SECTIONS, None, ss).value.groups;
    if GroupsUnique(groups) {
      forall g ensures PathFits(ss, g) {
        if GroupInputs(ss, g) != [] {
          GivenGroup(ss, g);
          FoldedUniqueIff(GroupInputs(ss, g));
        }
      }
    }
    if forall g :: PathFits(ss, g) {
      assert PathFits(ss, "");
      forall x | x in groups ensures Unique(FIELDS, x.fields) {
        StoredGroup(ss, x);
        assert PathFits(ss, x.id);
        FoldedUniqueIff(GroupInputs(ss, x.id));
      }
    }
  }

  /** All groups given with the path s/g fit together. */
  ghost predicate Fit(more: seq<Section>, s: string, g: string) { PathFits(Having(SECTIONS, more, s), g) }

  /** Merged sections have unique ids at every level exactly if, for every path s/g: the first
      group given has unique field ids and no field without one, the later ones together at most
      one field without id, and no two groups of the section have no id. */
  lemma MergedUniqueIff(more: seq<Section>)
    ensures AllUnique(Merge(SECTIONS, [], more)) <==> forall s, g :: Fit(more, s, g)
  {
    hide Merge, Having, Fold, PathFits, GroupsUnique;
    var r := Merge(SECTIONS, [], more);
    MergeUniqueIff(SECTIONS, [], more);
    assert Unique(SECTIONS, r);
    if AllUnique(r) {
      forall s, g ensures Fit(more, s, g) {
        var ss := Having(SECTIONS, more, s);
        if ss == [] {
          NothingGiven(g);
        } else {
          MergeAt(SECTIONS, [], more, s);
          SectionUniqueIff(ss);
          assert Fold(SECTIONS, None, ss).value in r;
        }
      }
    }
    if forall s, g :: Fit(more, s, g) {
      forall i | 0 <= i < |r| ensures GroupsUnique(r[i].groups) {
        var ss := Having(SECTIONS, more, r[i].id);
        UniqueAt(SECTIONS, r, i);
        MergeAt(SECTIONS, [], more, r[i].id);
        FoldSome(SECTIONS, None, ss);
        SectionUniqueIff(ss);
        forall g ensures PathFits(ss, g) { assert Fit(more, r[i].id, g); }
      }
    }
  }

  lemma NothingGiven(g: string)
    ensures PathFits([], g)
  {
  }

  /** It does fail: one field without id in one group is stored twice. */
  lemma UnnamedFieldDoubles()
    ensures var f := Field("", "", 0, "", "", "", 0, false, false, 0, "");
            var g := Group("g", "", "", 0, 0, "", "", "", [f]);
            Merge(SECTIONS, [], [EMPTY_SECTION.(id := "s", groups := [g])]) ==
            [EMPTY_SECTION.(id := "s", groups := [g.(fields := [f, f])])]
  {
    hide Merge;
    var f := Field("", "", 0, "", "", "", 0, false, false, 0, "");
    var g := Group("g", "", "", 0, 0, "", "", "", [f]);
    var s := EMPTY_SECTION.(id := "s", groups := [g]);
    MergeSingle(FIELDS, [f], f);
    MergeSingle(GROUPS, [], g);
    MergeSingle(SECTIONS, [], s);
    assert MergeOne(FIELDS, [f], f) == [f] + [f] == [f, f];
    assert MergeOne(GROUPS, [], g) == [] + [NewGroup(g)] == [g.(fields := [f, f])];
    assert MergeOne(SECTIONS, [], s) == [] + [NewSection(s)];
  }

  lemma MergeSingle<T(!new)>(l: Level<T>, xs: seq<T>, x: T)
    ensures Merge(l, xs, [x]) == MergeOne(l, xs, x)
  {
    assert [x][..0] == [];
  }
}
