/** Grouping dated raster scenes by whether they cover an area of interest.
 *
 *  `MyCube` holds three parallel lists: scene paths, acquisition dates and
 *  footprints. `GroupByFullyCovered` zips them, groups the scenes by date
 *  (dates in first-seen order, scenes in input order), and returns the
 *  scenes that cover the area of interest on their own ("single") and, per
 *  date, the paths of all scenes of that date when their union covers it
 *  ("mosaic").
 *
 *  Geometry is not interpreted. The caller passes the two geometry
 *  operations used: `within(a, g)` for `a.within(g)`, and `unaryUnion` for
 *  the union of a list of footprints. `P`, `G` and `D` are the types of
 *  paths, geometries and dates.
 */
module Raster2Xarray {

  datatype Scene<P, G, D> = Scene(s3Path: P, geometry: G, date: D)

  datatype MosaicEntry<P, D> = MosaicEntry(date: D, s3Paths: seq<P>)

  /** The returned dictionary, whose only keys are "single" and "mosaic". */
  datatype Grouping<P, G, D> = Grouping(single: seq<Scene<P, G, D>>, mosaic: seq<MosaicEntry<P, D>>)

  function Min3(a: nat, b: nat, c: nat): nat {
    if a <= b && a <= c then a else if b <= c then b else c
  }

  predicate NoDuplicates<T(==)>(s: seq<T>) {
    forall i, j :: 0 <= i < j < |s| ==> s[i] != s[j]
  }

  /** `zip(s3_paths, geometries, dates, strict=False)`: as many scenes as
      the shortest list has elements, the rest ignored. */
  function Zip<P, G, D>(paths: seq<P>, geometries: seq<G>, dates: seq<D>): (r: seq<Scene<P, G, D>>)
    ensures |r| == Min3(|paths|, |geometries|, |dates|)
    ensures forall i :: 0 <= i < |r| ==> r[i] == Scene(paths[i], geometries[i], dates[i])
  {
    if paths == [] || geometries == [] || dates == [] then []
    else [Scene(paths[0], geometries[0], dates[0])] + Zip(paths[1..], geometries[1..], dates[1..])
  }

  function Dates<P, G, D>(scenes: seq<Scene<P, G, D>>): seq<D> {
    seq(|scenes|, i requires 0 <= i < |scenes| => scenes[i].date)
  }

  function Geometries<P, G, D>(scenes: seq<Scene<P, G, D>>): seq<G> {
    seq(|scenes|, i requires 0 <= i < |scenes| => scenes[i].geometry)
  }

  function Paths<P, G, D>(scenes: seq<Scene<P, G, D>>): seq<P> {
    seq(|scenes|, i requires 0 <= i < |scenes| => scenes[i].s3Path)
  }

  /** The keys of the date dictionary, in insertion order: each date once,
      where it first occurs. */
  function FirstSeen<D(==)>(ds: seq<D>): (r: seq<D>)
    ensures NoDuplicates(r)
    ensures forall i :: 0 <= i < |r| ==> r[i] in ds
    ensures forall i :: 0 <= i < |ds| ==> ds[i] in r
    ensures |r| <= |ds|
  {
    if ds == [] then []
    else
      var prefix := FirstSeen(ds[..|ds| - 1]);
      if ds[|ds| - 1] in prefix then prefix else prefix + [ds[|ds| - 1]]
  }

  /** The position of the first occurrence of `d`. */
  function FirstIndex<D(==)>(ds: seq<D>, d: D): (k: nat)
    requires d in ds
    ensures k < |ds| && ds[k] == d
    ensures forall i :: 0 <= i < k ==> ds[i] != d
  {
    if ds[0] == d then 0 else 1 + FirstIndex(ds[1..], d)
  }

  /** The list the date dictionary holds for `d`: the scenes of that date,
      in input order. */
  function GroupOf<P, G, D(==)>(scenes: seq<Scene<P, G, D>>, d: D): seq<Scene<P, G, D>> {
    if scenes == [] then []
    else
      var last := scenes[|scenes| - 1];
      GroupOf(scenes[..|scenes| - 1], d) + (if last.date == d then [last] else [])
  }

  /** The scenes that each cover the area of interest, in order. */
  function Covered<P, G, D>(scenes: seq<Scene<P, G, D>>, aoi: G, within: (G, G) -> bool): seq<Scene<P, G, D>> {
    if scenes == [] then []
    else
      var last := scenes[|scenes| - 1];
      Covered(scenes[..|scenes| - 1], aoi, within) + (if within(aoi, last.geometry) then [last] else [])
  }

  /** The groups of the dates in `order`, one after the other. */
  function Groups<P, G, D(==)>(scenes: seq<Scene<P, G, D>>, order: seq<D>): seq<Scene<P, G, D>> {
    if order == [] then []
    else Groups(scenes, order[..|order| - 1]) + GroupOf(scenes, order[|order| - 1])
  }

  /** "single": group by group, the scenes that cover on their own. */
  function SingleOf<P, G, D(==)>(scenes: seq<Scene<P, G, D>>, order: seq<D>, aoi: G,
                                 within: (G, G) -> bool): seq<Scene<P, G, D>> {
    if order == [] then []
    else SingleOf(scenes, order[..|order| - 1], aoi, within)
         + Covered(GroupOf(scenes, order[|order| - 1]), aoi, within)
  }

  /** The mosaic entry of date `d`, if the union of its scenes covers. */
  function MosaicFor<P, G, D(==)>(scenes: seq<Scene<P, G, D>>, d: D, aoi: G, within: (G, G) -> bool,
                                  unaryUnion: seq<G> -> G): seq<MosaicEntry<P, D>> {
    var group := GroupOf(scenes, d);
    if within(aoi, unaryUnion(Geometries(group))) then [MosaicEntry(d, Paths(group))] else []
  }

  /** "mosaic": date by date, the entries whose union covers. */
  function MosaicOf<P, G, D(==)>(scenes: seq<Scene<P, G, D>>, order: seq<D>, aoi: G, within: (G, G) -> bool,
                                 unaryUnion: seq<G> -> G): seq<MosaicEntry<P, D>> {
    if order == [] then []
    else MosaicOf(scenes, order[..|order| - 1], aoi, within, unaryUnion)
         + MosaicFor(scenes, order[|order| - 1], aoi, within, unaryUnion)
  }

  function MosaicDates<P, D>(m: seq<MosaicEntry<P, D>>): seq<D> {
    seq(|m|, i requires 0 <= i < |m| => m[i].date)
  }

  /** What `group_by_fully_covered` returns, as a function of the three
      lists and the geometry operations. */
  function CoverageGroups<P, G, D(==)>(paths: seq<P>, geometries: seq<G>, dates: seq<D>, aoi: G,
                                       within: (G, G) -> bool, unaryUnion: seq<G> -> G): Grouping<P, G, D> {
    var scenes := Zip(paths, geometries, dates);
    var order := FirstSeen(Dates(scenes));
    Grouping(SingleOf(scenes, order, aoi, within), MosaicOf(scenes, order, aoi, within, unaryUnion))
  }

  // ---------------------------------------------------------------------
  // Lemmas about the specification functions

  /** A date that does not occur has an empty group. */
  lemma {:induction false} GroupOfAbsent<P, G, D>(scenes: seq<Scene<P, G, D>>, d: D)
    requires d !in Dates(scenes)
    ensures GroupOf(scenes, d) == []
  {
    if scenes != [] {
      var prefix := scenes[..|scenes| - 1];
      assert Dates(prefix) == Dates(scenes)[..|scenes| - 1];
      assert Dates(scenes)[|scenes| - 1] == scenes[|scenes| - 1].date;
      GroupOfAbsent(prefix, d);
    }
  }

  /** Grouping keeps input order: the group of a concatenation is the
      concatenation of the groups. */
  lemma {:induction false} GroupOfAppend<P, G, D>(s: seq<Scene<P, G, D>>, t: seq<Scene<P, G, D>>, d: D)
    ensures GroupOf(s + t, d) == GroupOf(s, d) + GroupOf(t, d)
  {
    if t == [] {
      assert s + t == s;
    } else {
      var t' := t[..|t| - 1];
      assert (s + t)[..|s + t| - 1] == s + t';
      GroupOfAppend(s, t', d);
    }
  }

  /** Each scene occurs in the group of `d` exactly as often as in the
      input if its date is `d`, and not at all otherwise. */
  lemma {:induction false} GroupCount<P, G, D>(scenes: seq<Scene<P, G, D>>, d: D, x: Scene<P, G, D>)
    ensures multiset(GroupOf(scenes, d))[x] == if x.date == d then multiset(scenes)[x] else 0
  {
    if scenes != [] {
      var prefix := scenes[..|scenes| - 1];
      assert scenes == prefix + [scenes[|scenes| - 1]];
      GroupCount(prefix, d, x);
    }
  }

  /** Each scene occurs among the covering ones exactly as often as in the
      input if it covers, and not at all otherwise. */
  lemma {:induction false} CoveredCount<P, G, D>(scenes: seq<Scene<P, G, D>>, aoi: G, within: (G, G) -> bool,
                                                 x: Scene<P, G, D>)
    ensures multiset(Covered(scenes, aoi, within))[x] == if within(aoi, x.geometry) then multiset(scenes)[x] else 0
  {
    if scenes != [] {
      var prefix := scenes[..|scenes| - 1];
      assert scenes == prefix + [scenes[|scenes| - 1]];
      CoveredCount(prefix, aoi, within, x);
    }
  }

  lemma {:induction false} CoveredLength<P, G, D>(scenes: seq<Scene<P, G, D>>, aoi: G, within: (G, G) -> bool)
    ensures |Covered(scenes, aoi, within)| <= |scenes|
  {
    if scenes != [] {
      CoveredLength(scenes[..|scenes| - 1], aoi, within);
    }
  }

  /** Grouping a sequence with no scenes gives nothing. */
  lemma {:induction false} GroupsOfNothing<P, G, D>(order: seq<D>)
    ensures Groups<P, G, D>([], order) == []
  {
    if order != [] {
      GroupsOfNothing<P, G, D>(order[..|order| - 1]);
    }
  }

  /** With distinct dates in `order`, one more scene adds exactly one copy
      of it to the groups of `order` if its date is listed, and none
      otherwise. */
  lemma {:induction false} GroupsAddScene<P, G, D>(scenes: seq<Scene<P, G, D>>, s: Scene<P, G, D>, order: seq<D>)
    requires NoDuplicates(order)
    ensures multiset(Groups(scenes + [s], order))
            == multiset(Groups(scenes, order)) + if s.date in order then multiset{s} else multiset{}
  {
    if order != [] {
      var prefix := order[..|order| - 1];
      var d := order[|order| - 1];
      GroupsAddScene(scenes, s, prefix);
      var t := scenes + [s];
      assert t[..|t| - 1] == scenes && t[|t| - 1] == s;
      var extra := if s.date == d then [s] else [];
      assert GroupOf(t, d) == GroupOf(scenes, d) + extra;
      assert Groups(t, order) == Groups(t, prefix) + GroupOf(t, d);
      assert Groups(scenes, order) == Groups(scenes, prefix) + GroupOf(scenes, d);
      assert s.date == d ==> s.date !in prefix;
      assert s.date in order <==> s.date in prefix || s.date == d;
    }
  }

  /** With distinct dates in `order` that include every scene's date, the
      groups of `order` are a permutation of the scenes. */
  lemma {:induction false} GroupsPermute<P, G, D>(scenes: seq<Scene<P, G, D>>, order: seq<D>)
    requires NoDuplicates(order)
    requires forall i :: 0 <= i < |scenes| ==> scenes[i].date in order
    ensures multiset(Groups(scenes, order)) == multiset(scenes)
  {
    if scenes == [] {
      GroupsOfNothing<P, G, D>(order);
    } else {
      var prefix := scenes[..|scenes| - 1];
      var s := scenes[|scenes| - 1];
      assert scenes == prefix + [s];
      GroupsPermute(prefix, order);
      GroupsAddScene(prefix, s, order);
    }
  }

  /** Every considered scene is put in exactly one group, the group of its
      own date: the groups, read in dictionary order, are a permutation of
      the zipped scenes. */
  lemma Partition<P, G, D>(scenes: seq<Scene<P, G, D>>)
    ensures multiset(Groups(scenes, FirstSeen(Dates(scenes)))) == multiset(scenes)
    ensures |Groups(scenes, FirstSeen(Dates(scenes)))| == |scenes|
  {
    var order := FirstSeen(Dates(scenes));
    forall i | 0 <= i < |scenes|
      ensures scenes[i].date in order
    {
      assert Dates(scenes)[i] == scenes[i].date;
    }
    GroupsPermute(scenes, order);
    assert |multiset(Groups(scenes, order))| == |multiset(scenes)|;
  }

  /** "single" holds a scene exactly as often as the input does if its date
      is among `order` and it covers, and not at all otherwise. */
  lemma {:induction false} SingleCount<P, G, D>(scenes: seq<Scene<P, G, D>>, order: seq<D>, aoi: G,
                                                    within: (G, G) -> bool, x: Scene<P, G, D>)
    requires NoDuplicates(order)
    ensures multiset(SingleOf(scenes, order, aoi, within))[x]
            == if x.date in order && within(aoi, x.geometry) then multiset(scenes)[x] else 0
  {
    if order != [] {
      var prefix := order[..|order| - 1];
      var d := order[|order| - 1];
      assert order == prefix + [d];
      SingleCount(scenes, prefix, aoi, within, x);
      CoveredCount(GroupOf(scenes, d), aoi, within, x);
      GroupCount(scenes, d, x);
      assert x.date == d ==> x.date !in prefix;
    }
  }

  /** Selecting the covering scenes keeps input order: it commutes with
      concatenation. */
  lemma {:induction false} CoveredAppend<P, G, D>(s: seq<Scene<P, G, D>>, t: seq<Scene<P, G, D>>, aoi: G,
                                                  within: (G, G) -> bool)
    ensures Covered(s + t, aoi, within) == Covered(s, aoi, within) + Covered(t, aoi, within)
  {
    if t == [] {
      assert s + t == s;
    } else {
      var t' := t[..|t| - 1];
      assert (s + t)[..|s + t| - 1] == s + t' && (s + t)[|s + t| - 1] == t[|t| - 1];
      CoveredAppend(s, t', aoi, within);
    }
  }

  /** "single" is ordered date group by date group, and by input order
      within a group: it is exactly the covering scenes of the groups read
      one after the other. */
  lemma {:induction false} SingleIsCoveredGroups<P, G, D>(scenes: seq<Scene<P, G, D>>, order: seq<D>, aoi: G,
                                                          within: (G, G) -> bool)
    ensures SingleOf(scenes, order, aoi, within) == Covered(Groups(scenes, order), aoi, within)
  {
    if order != [] {
      var prefix, d := order[..|order| - 1], order[|order| - 1];
      SingleIsCoveredGroups(scenes, prefix, aoi, within);
      CoveredAppend(Groups(scenes, prefix), GroupOf(scenes, d), aoi, within);
    }
  }

  /** The dictionary's keys come in order of first occurrence. */
  lemma {:induction false} FirstSeenOrder<D>(ds: seq<D>)
    ensures forall i, j :: 0 <= i < j < |FirstSeen(ds)| ==>
              FirstIndex(ds, FirstSeen(ds)[i]) < FirstIndex(ds, FirstSeen(ds)[j])
  {
    if ds != [] {
      var prefix := ds[..|ds| - 1];
      var y := ds[|ds| - 1];
      assert ds == prefix + [y];
      FirstSeenOrder(prefix);
      var r, r' := FirstSeen(ds), FirstSeen(prefix);
      assert r == if y in r' then r' else r' + [y];
      forall i, j | 0 <= i < j < |r|
        ensures FirstIndex(ds, r[i]) < FirstIndex(ds, r[j])
      {
        assert r[i] == r'[i] && r[i] in prefix;
        FirstIndexAppend(prefix, y, r[i]);
        FirstIndexAppend(prefix, y, r[j]);
        if j < |r'| {
          assert r[j] == r'[j] && r[j] in prefix;
        } else {
          assert r[j] == y && y !in r';
          assert y !in prefix;
          assert FirstIndex(prefix, r[i]) < |prefix|;
        }
      }
    }
  }

  /** Appending an element leaves the first index of an element already
      present unchanged; a new element's first index is the old length. */
  lemma {:induction false} FirstIndexAppend<D>(ds: seq<D>, y: D, d: D)
    requires d in ds + [y]
    ensures d in ds ==> FirstIndex(ds + [y], d) == FirstIndex(ds, d)
    ensures d !in ds ==> FirstIndex(ds + [y], d) == |ds|
  {
    if ds != [] && ds[0] != d {
      assert (ds + [y])[1..] == ds[1..] + [y];
      FirstIndexAppend(ds[1..], y, d);
    }
  }

  /** The number of keys is the number of distinct dates. */
  lemma {:induction false} FirstSeenCount<D>(ds: seq<D>)
    ensures |FirstSeen(ds)| == |set d | d in ds|
  {
    if ds != [] {
      var prefix := ds[..|ds| - 1];
      var y := ds[|ds| - 1];
      assert ds == prefix + [y];
      FirstSeenCount(prefix);
      var r' := FirstSeen(prefix);
      var seen := set d | d in prefix;
      assert (set d | d in ds) == seen + {y};
      assert FirstSeen(ds) == if y in r' then r' else r' + [y];
      if y in r' {
        assert y in seen;
        assert seen + {y} == seen;
      } else {
        assert y !in prefix;
        assert y !in seen;
      }
    }
  }

  /** A date has a "mosaic" entry exactly when it is listed and the union
      of its scenes covers; the entry lists the paths of all scenes of the
      date, in input order, covering on their own or not. */
  lemma {:induction false} MosaicEntries<P, G, D>(scenes: seq<Scene<P, G, D>>, order: seq<D>, aoi: G,
                                                      within: (G, G) -> bool, unaryUnion: seq<G> -> G)
    ensures forall d :: d in MosaicDates(MosaicOf(scenes, order, aoi, within, unaryUnion)) <==>
              d in order && within(aoi, unaryUnion(Geometries(GroupOf(scenes, d))))
    ensures forall e :: e in MosaicOf(scenes, order, aoi, within, unaryUnion) ==>
              e.s3Paths == Paths(GroupOf(scenes, e.date))
  {
    if order != [] {
      var prefix := order[..|order| - 1];
      var d := order[|order| - 1];
      assert order == prefix + [d];
      MosaicEntries(scenes, prefix, aoi, within, unaryUnion);
      var m' := MosaicOf(scenes, prefix, aoi, within, unaryUnion);
      var added := MosaicFor(scenes, d, aoi, within, unaryUnion);
      var covers := within(aoi, unaryUnion(Geometries(GroupOf(scenes, d))));
      assert added == if covers then [MosaicEntry(d, Paths(GroupOf(scenes, d)))] else [];
      assert MosaicOf(scenes, order, aoi, within, unaryUnion) == m' + added;
      assert MosaicDates(m' + added) == MosaicDates(m') + MosaicDates(added);
      assert MosaicDates(added) == if covers then [d] else [];
      forall d' | true
        ensures d' in order <==> d' in prefix || d' == d
      {}
    }
  }

  /** With distinct dates in `order`, "mosaic" has at most one entry per
      date and no more entries than `order` has dates. */
  lemma {:induction false} MosaicDistinct<P, G, D>(scenes: seq<Scene<P, G, D>>, order: seq<D>, aoi: G,
                                                       within: (G, G) -> bool, unaryUnion: seq<G> -> G)
    requires NoDuplicates(order)
    ensures NoDuplicates(MosaicDates(MosaicOf(scenes, order, aoi, within, unaryUnion)))
    ensures |MosaicOf(scenes, order, aoi, within, unaryUnion)| <= |order|
  {
    if order != [] {
      var prefix := order[..|order| - 1];
      var d := order[|order| - 1];
      assert order == prefix + [d];
      MosaicDistinct(scenes, prefix, aoi, within, unaryUnion);
      MosaicEntries(scenes, prefix, aoi, within, unaryUnion);
      var m' := MosaicOf(scenes, prefix, aoi, within, unaryUnion);
      var before, added := MosaicDates(m'), MosaicDates(MosaicFor(scenes, d, aoi, within, unaryUnion));
      assert MosaicDates(MosaicOf(scenes, order, aoi, within, unaryUnion)) == before + added;
      assert d !in before;
      assert added == [] || added == [d];
      forall i, j | 0 <= i < j < |before + added|
        ensures (before + added)[i] != (before + added)[j]
      {
        if j >= |before| {
          assert (before + added)[i] in before;
        }
      }
    }
  }

  /** "single" of `group_by_fully_covered`, stated over the zipped scenes:
      it holds each scene exactly as often as the input does if the scene
      covers `aoi` on its own and not at all otherwise, so it repeats no
      scene the input does not repeat, and it is no longer than the input. */
  lemma SingleProperties<P, G, D>(paths: seq<P>, geometries: seq<G>, dates: seq<D>, aoi: G,
                                      within: (G, G) -> bool, unaryUnion: seq<G> -> G)
    ensures var scenes := Zip(paths, geometries, dates);
            var r := CoverageGroups(paths, geometries, dates, aoi, within, unaryUnion);
            && (forall x :: multiset(r.single)[x] == if within(aoi, x.geometry) then multiset(scenes)[x] else 0)
            && |r.single| <= |scenes|
  {
    var scenes := Zip(paths, geometries, dates);
    var order := FirstSeen(Dates(scenes));
    forall x | true
      ensures multiset(SingleOf(scenes, order, aoi, within))[x]
              == if within(aoi, x.geometry) then multiset(scenes)[x] else 0
    {
      SingleCountAll(scenes, aoi, within, x);
    }
    SingleIsCoveredGroups(scenes, order, aoi, within);
    CoveredLength(Groups(scenes, order), aoi, within);
    Partition(scenes);
  }

  /** `SingleCount` for the dates of all scenes, in order of first
      occurrence. */
  lemma SingleCountAll<P, G, D>(scenes: seq<Scene<P, G, D>>, aoi: G, within: (G, G) -> bool, x: Scene<P, G, D>)
    ensures multiset(SingleOf(scenes, FirstSeen(Dates(scenes)), aoi, within))[x]
            == if within(aoi, x.geometry) then multiset(scenes)[x] else 0
  {
    var order := FirstSeen(Dates(scenes));
    SingleCount(scenes, order, aoi, within, x);
    if x in scenes {
      var i :| 0 <= i < |scenes| && scenes[i] == x;
      assert Dates(scenes)[i] == x.date;
      assert x.date in order;
    } else {
      assert multiset(scenes)[x] == 0;
    }
  }

  /** "mosaic" of `group_by_fully_covered`, stated over the zipped scenes:
      at most one entry per date; an entry for a date exactly when the date
      occurs and the union of its scenes covers `aoi`; the paths of all of
      that date's scenes in each entry; no more entries than distinct dates. */
  lemma MosaicProperties<P, G, D>(paths: seq<P>, geometries: seq<G>, dates: seq<D>, aoi: G,
                                      within: (G, G) -> bool, unaryUnion: seq<G> -> G)
    ensures var scenes := Zip(paths, geometries, dates);
            var r := CoverageGroups(paths, geometries, dates, aoi, within, unaryUnion);
            && NoDuplicates(MosaicDates(r.mosaic))
            && (forall d :: d in MosaicDates(r.mosaic) <==>
                  d in dates[..|scenes|] && within(aoi, unaryUnion(Geometries(GroupOf(scenes, d)))))
            && (forall e :: e in r.mosaic ==> e.s3Paths == Paths(GroupOf(scenes, e.date)))
            && |r.mosaic| <= |set d | d in dates[..|scenes|]|
  {
    var scenes := Zip(paths, geometries, dates);
    var order := FirstSeen(Dates(scenes));
    assert Dates(scenes) == dates[..|scenes|];
    MosaicEntries(scenes, order, aoi, within, unaryUnion);
    MosaicDistinct(scenes, order, aoi, within, unaryUnion);
    FirstSeenCount(Dates(scenes));
  }

  /** Only the first `Min3(...)` triples matter: extra elements of the
      longer lists are ignored. */
  lemma ExtraElementsIgnored<P, G, D>(paths: seq<P>, geometries: seq<G>, dates: seq<D>, aoi: G,
                                          within: (G, G) -> bool, unaryUnion: seq<G> -> G)
    ensures var n := Min3(|paths|, |geometries|, |dates|);
            CoverageGroups(paths, geometries, dates, aoi, within, unaryUnion)
            == CoverageGroups(paths[..n], geometries[..n], dates[..n], aoi, within, unaryUnion)
  {
    var n := Min3(|paths|, |geometries|, |dates|);
    assert Zip(paths, geometries, dates) == Zip(paths[..n], geometries[..n], dates[..n]);
  }

  /** One more scene: its list gains it, the others stay as they were. */
  lemma GroupOfStep<P, G, D>(all: seq<Scene<P, G, D>>, i: nat, d: D)
    requires i < |all|
    ensures GroupOf(all[..i + 1], d) == GroupOf(all[..i], d) + (if all[i].date == d then [all[i]] else [])
  {
    assert all[..i + 1][..i] == all[..i];
  }

  /** `m` maps each of its dates to the group of that date in `scenes`. */
  ghost predicate IndexedByDate<P, G, D>(m: map<D, seq<Scene<P, G, D>>>, scenes: seq<Scene<P, G, D>>) {
    forall d :: d in m ==> m[d] == GroupOf(scenes, d)
  }

  /** The state of `scenes_by_date` after `scenes`: its keys in insertion
      order are `keys`, and each holds the group of its date. */
  ghost predicate DateIndex<P, G, D>(m: map<D, seq<Scene<P, G, D>>>, keys: seq<D>, scenes: seq<Scene<P, G, D>>) {
    && keys == FirstSeen(Dates(scenes))
    && (forall d :: d in m ==> d in keys)
    && (forall d :: d in keys ==> d in m)
    && IndexedByDate(m, scenes)
  }

  /** The dictionary `scenes_by_date` after appending each of `scenes` in
      turn, starting from an empty `defaultdict(list)`. */
  ghost function IndexOf<P, G, D>(scenes: seq<Scene<P, G, D>>): map<D, seq<Scene<P, G, D>>>
    decreases |scenes|
  {
    if scenes == [] then map[]
    else
      var m := IndexOf(scenes[..|scenes| - 1]);
      var s := scenes[|scenes| - 1];
      m[s.date := (if s.date in m then m[s.date] else []) + [s]]
  }

  /** The keys of `IndexOf(scenes)` in insertion order. */
  ghost function KeysOf<P, G, D>(scenes: seq<Scene<P, G, D>>): seq<D>
    decreases |scenes|
  {
    if scenes == [] then []
    else
      var s := scenes[|scenes| - 1];
      var keys := KeysOf(scenes[..|scenes| - 1]);
      if s.date in IndexOf(scenes[..|scenes| - 1]) then keys else keys + [s.date]
  }

  /** One more scene appended to the dictionary. */
  lemma IndexStep<P, G, D>(all: seq<Scene<P, G, D>>, i: nat)
    requires i < |all|
    ensures var m, s := IndexOf(all[..i]), all[i];
            && IndexOf(all[..i + 1]) == m[s.date := (if s.date in m then m[s.date] else []) + [s]]
            && KeysOf(all[..i + 1]) == if s.date in m then KeysOf(all[..i]) else KeysOf(all[..i]) + [s.date]
  {
    assert all[..i + 1][..i] == all[..i];
  }

  /** The dictionary built from `scenes` maps each date to its group, and
      its keys are the dates in order of first appearance. */
  lemma {:induction false} IndexOfIsDateIndex<P, G, D>(scenes: seq<Scene<P, G, D>>)
    ensures DateIndex(IndexOf(scenes), KeysOf(scenes), scenes)
    decreases |scenes|
  {
    if scenes == [] {
      assert Dates(scenes) == [];
    } else {
      var i := |scenes| - 1;
      IndexOfIsDateIndex(scenes[..i]);
      IndexStep(scenes, i);
      assert scenes[..i + 1] == scenes;
      DateIndexStep(IndexOf(scenes[..i]), KeysOf(scenes[..i]), scenes, i, IndexOf(scenes), KeysOf(scenes));
    }
  }

  /** `scenes_by_date[date].append(scene)` on a `defaultdict(list)`. */
  lemma DateIndexStep<P, G, D>(m: map<D, seq<Scene<P, G, D>>>, keys: seq<D>, all: seq<Scene<P, G, D>>, i: nat,
                               m': map<D, seq<Scene<P, G, D>>>, keys': seq<D>)
    requires i < |all|
    requires DateIndex(m, keys, all[..i])
    requires m' == m[all[i].date := (if all[i].date in m then m[all[i].date] else []) + [all[i]]]
    requires keys' == if all[i].date in m then keys else keys + [all[i].date]
    ensures DateIndex(m', keys', all[..i + 1])
  {
    FirstSeenStep(all, i);
    if all[i].date !in m {
      assert all[i].date !in FirstSeen(Dates(all[..i]));
    }
    AppendToIndex(m, all, i);
  }

  /** `scenes_by_date[date].append(scene)` keeps the dictionary an index of
      the scenes seen so far. */
  lemma AppendToIndex<P, G, D>(m: map<D, seq<Scene<P, G, D>>>, all: seq<Scene<P, G, D>>, i: nat)
    requires i < |all|
    requires IndexedByDate(m, all[..i])
    requires all[i].date !in m ==> all[i].date !in Dates(all[..i])
    ensures IndexedByDate(m[all[i].date := (if all[i].date in m then m[all[i].date] else []) + [all[i]]], all[..i + 1])
  {
    var s := all[i];
    var m' := m[s.date := (if s.date in m then m[s.date] else []) + [s]];
    forall d | d in m'
      ensures m'[d] == GroupOf(all[..i + 1], d)
    {
      GroupOfStep(all, i, d);
      if d == s.date && s.date !in m {
        GroupOfAbsent(all[..i], d);
      }
    }
  }

  /** One more scene: its date becomes a new key unless it is one already. */
  lemma FirstSeenStep<P, G, D>(all: seq<Scene<P, G, D>>, i: nat)
    requires i < |all|
    ensures var keys := FirstSeen(Dates(all[..i]));
            FirstSeen(Dates(all[..i + 1])) == if all[i].date in keys then keys else keys + [all[i].date]
  {
    assert Dates(all[..i + 1])[..i] == Dates(all[..i]);
  }

  /** One more key: "single" gains the covering scenes of its group. */
  lemma SingleOfStep<P, G, D>(scenes: seq<Scene<P, G, D>>, order: seq<D>, k: nat, aoi: G, within: (G, G) -> bool)
    requires k < |order|
    ensures SingleOf(scenes, order[..k + 1], aoi, within)
            == SingleOf(scenes, order[..k], aoi, within) + Covered(GroupOf(scenes, order[k]), aoi, within)
  {
    assert order[..k + 1][..k] == order[..k];
  }

  /** One more key: "mosaic" gains that date's entry, if any. */
  lemma MosaicOfStep<P, G, D>(scenes: seq<Scene<P, G, D>>, order: seq<D>, k: nat, aoi: G, within: (G, G) -> bool,
                              unaryUnion: seq<G> -> G)
    requires k < |order|
    ensures MosaicOf(scenes, order[..k + 1], aoi, within, unaryUnion)
            == MosaicOf(scenes, order[..k], aoi, within, unaryUnion) + MosaicFor(scenes, order[k], aoi, within, unaryUnion)
  {
    assert order[..k + 1][..k] == order[..k];
  }

  /** One more scene: the covering ones gain it if it covers. */
  lemma CoveredStep<P, G, D>(scenes: seq<Scene<P, G, D>>, j: nat, aoi: G, within: (G, G) -> bool)
    requires j < |scenes|
    ensures Covered(scenes[..j + 1], aoi, within)
            == Covered(scenes[..j], aoi, within) + if within(aoi, scenes[j].geometry) then [scenes[j]] else []
  {
    assert scenes[..j + 1][..j] == scenes[..j];
  }

  /** Lines 21-29 of `group_by_fully_covered`: fills the `defaultdict`
      `scenes_by_date` from the zipped scenes. `keys` lists its keys in
      insertion order, which is the order in which Python iterates it. */
  method ScenesByDate<P, G, D>(scenes: seq<Scene<P, G, D>>) returns (scenesByDate: map<D, seq<Scene<P, G, D>>>, keys: seq<D>)
    ensures DateIndex(scenesByDate, keys, scenes)
  {
    scenesByDate, keys := map[], [];
    var i := 0;
    while i < |scenes|
      invariant 0 <= i <= |scenes|
      invariant scenesByDate == IndexOf(scenes[..i]) && keys == KeysOf(scenes[..i])
    {
      var scene := scenes[i];
      IndexStep(scenes, i);
      keys := if scene.date in scenesByDate then keys else keys + [scene.date];
      var group := if scene.date in scenesByDate then scenesByDate[scene.date] else [];
      scenesByDate := scenesByDate[scene.date := group + [scene]];
      i := i + 1;
    }
    assert scenes[..i] == scenes;
    IndexOfIsDateIndex(scenes);
  }

  // ---------------------------------------------------------------------
  // The class

  class MyCube<P, G, D(==)> {
    var s3Paths: seq<P>
    var dates: seq<D>
    var geometries: seq<G>

    constructor (s3Paths: seq<P>, dates: seq<D>, geometries: seq<G>)
      ensures this.s3Paths == s3Paths && this.dates == dates && this.geometries == geometries
    {
      this.s3Paths := s3Paths;
      this.dates := dates;
      this.geometries := geometries;
    }

    /** Groups the scenes by date and selects those that cover `aoi` singly
        and the dates whose scenes cover it as a mosaic. Reads the three
        lists and changes nothing. */
    method GroupByFullyCovered(aoi: G, within: (G, G) -> bool, unaryUnion: seq<G> -> G)
      returns (r: Grouping<P, G, D>)
      ensures r == CoverageGroups(s3Paths, geometries, dates, aoi, within, unaryUnion)
    {
      var all := Zip(s3Paths, geometries, dates);
      var scenesByDate, keys := ScenesByDate(all);

      var single: seq<Scene<P, G, D>> := [];
      var mosaic: seq<MosaicEntry<P, D>> := [];
      var k := 0;
      while k < |keys|
        invariant 0 <= k <= |keys|
        invariant single == SingleOf(all, keys[..k], aoi, within)
        invariant mosaic == MosaicOf(all, keys[..k], aoi, within, unaryUnion)
      {
        var date := keys[k];
        var scenes := scenesByDate[date];
        SingleOfStep(all, keys, k, aoi, within);
        MosaicOfStep(all, keys, k, aoi, within, unaryUnion);
        var covering: seq<Scene<P, G, D>> := [];
        var j := 0;
        while j < |scenes|
          invariant 0 <= j <= |scenes|
          invariant covering == Covered(scenes[..j], aoi, within)
        {
          CoveredStep(scenes, j, aoi, within);
          if within(aoi, scenes[j].geometry) {
            covering := covering + [scenes[j]];
          }
          j := j + 1;
        }
        assert scenes[..j] == scenes;
        single := single + covering;
        var unionGeom := unaryUnion(Geometries(scenes));
        if within(aoi, unionGeom) {
          mosaic := mosaic + [MosaicEntry(date, Paths(scenes))];
        }
        k := k + 1;
      }
      assert keys[..k] == keys;
      r := Grouping(single, mosaic);
    }
  }
}
