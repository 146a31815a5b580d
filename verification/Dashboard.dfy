/** Normalizing the operator dashboard: unique panel ids, sections found by their
    vertical bands, two groups of sections merged, every section stacked below
    the one before it, and all but the reference sections re-flowed into rows.

    A panel is known by its index in the list, which never changes here. */
module Dashboard {

  datatype GridPos = GridPos(x: int, y: int, w: int, h: int)

  datatype Panel = Panel(id: int, kind: string, collapsed: bool, pos: GridPos) {
    predicate IsRow() { kind == "row" }
  }

  datatype Section = Section(row: nat, members: seq<nat>)

  const COLUMNS := 24
  const ROW_HEIGHT := 8
  const BOTTOM := 1_000_000_000
  const REFERENCE: set<int> := {1, 14, 20, 39, 256, 46}
  const ABSORBED: set<int> := {64, 68, 58, 230, 290}

  /** The row ids whose members end up under a kept header. */
  function Group(rid: int): seq<int> {
    if rid == 27 then [27, 64, 68, 58] else if rid == 200 then [200, 230, 290] else [rid]
  }

  predicate Overlap(a: GridPos, b: GridPos) {
    a.x < b.x + b.w && b.x < a.x + a.w && a.y < b.y + b.h && b.y < a.y + a.h
  }

  ghost predicate Distinct(s: seq<nat>) {
    forall i, j :: 0 <= i < j < |s| ==> s[i] != s[j]
  }

  predicate Indices(s: seq<nat>, n: nat) {
    forall i :: 0 <= i < |s| ==> s[i] < n
  }

  ghost predicate UniqueIds(panels: seq<Panel>) {
    forall i, j :: 0 <= i < j < |panels| ==> panels[i].id != panels[j].id
  }

  // ------------------------------------------------------------------ sections

  /** Panel `r` goes behind all earlier panels that do not lie below it. */
  function Insert(panels: seq<Panel>, r: nat, rows: seq<nat>): (out: seq<nat>)
    requires r < |panels| && Indices(rows, r)
    ensures Indices(out, r + 1)
  {
    if rows == [] || panels[r].pos.y < panels[rows[0]].pos.y then [r] + rows
    else [rows[0]] + Insert(panels, r, rows[1..])
  }

  lemma {:induction false} InsertMembers(panels: seq<Panel>, r: nat, rows: seq<nat>, x: nat)
    requires r < |panels| && Indices(rows, r)
    ensures x in Insert(panels, r, rows) <==> x == r || x in rows
  {
    if rows != [] && panels[rows[0]].pos.y <= panels[r].pos.y {
      InsertMembers(panels, r, rows[1..], x);
      assert rows == [rows[0]] + rows[1..];
    }
  }

  /** The rows among the first `k` panels, by y; rows at the same y stay in list order. */
  function SortedRows(panels: seq<Panel>, k: nat): (out: seq<nat>)
    requires k <= |panels|
    ensures Indices(out, k)
  {
    if k == 0 then []
    else if panels[k - 1].IsRow() then Insert(panels, k - 1, SortedRows(panels, k - 1))
    else SortedRows(panels, k - 1)
  }

  ghost predicate Ascending(panels: seq<Panel>, rows: seq<nat>) {
    && Indices(rows, |panels|)
    && (forall i, j :: 0 <= i < j < |rows| ==> Above(panels, rows[i], rows[j]))
  }

  /** Higher up, or at the same height and earlier in the list. */
  predicate Above(panels: seq<Panel>, r: nat, q: nat)
    requires r < |panels| && q < |panels|
  {
    panels[r].pos.y < panels[q].pos.y || (panels[r].pos.y == panels[q].pos.y && r < q)
  }

  lemma AscendingCons(panels: seq<Panel>, r: nat, rest: seq<nat>)
    requires r < |panels| && Ascending(panels, rest)
    requires forall i :: 0 <= i < |rest| ==> Above(panels, r, rest[i])
    ensures Ascending(panels, [r] + rest)
  {
    var out := [r] + rest;
    forall i, j | 0 <= i < j < |out| ensures Above(panels, out[i], out[j]) {
      assert out[j] == rest[j - 1];
      if i > 0 { assert out[i] == rest[i - 1]; }
    }
  }

  lemma {:induction false} InsertAscending(panels: seq<Panel>, r: nat, rows: seq<nat>)
    requires r < |panels| && Ascending(panels, rows) && Indices(rows, r)
    ensures Ascending(panels, Insert(panels, r, rows))
    decreases |rows|
  {
    if rows == [] || panels[r].pos.y < panels[rows[0]].pos.y {
      forall i | 0 <= i < |rows| ensures Above(panels, r, rows[i]) {
        if i > 0 { assert Above(panels, rows[0], rows[i]); }
      }
      AscendingCons(panels, r, rows);
    } else {
      var rest := Insert(panels, r, rows[1..]);
      InsertAscending(panels, r, rows[1..]);
      forall i | 0 <= i < |rest| ensures Above(panels, rows[0], rest[i]) {
        InsertMembers(panels, r, rows[1..], rest[i]);
        if rest[i] in rows[1..] {
          var j :| 0 <= j < |rows[1..]| && rows[1..][j] == rest[i];
          assert Above(panels, rows[0], rows[j + 1]);
        }
      }
      AscendingCons(panels, rows[0], rest);
    }
  }

  lemma {:induction false} SortedRowsAscend(panels: seq<Panel>, k: nat)
    requires k <= |panels|
    ensures Ascending(panels, SortedRows(panels, k))
  {
    if k > 0 {
      SortedRowsAscend(panels, k - 1);
      NextRowAscends(panels, k, SortedRows(panels, k - 1), SortedRows(panels, k));
    }
  }

  lemma NextRowAscends(panels: seq<Panel>, k: nat, rows: seq<nat>, next: seq<nat>)
    requires 0 < k <= |panels| && Ascending(panels, rows) && Indices(rows, k - 1)
    requires next == if panels[k - 1].IsRow() then Insert(panels, k - 1, rows) else rows
    ensures Ascending(panels, next)
  {
    if panels[k - 1].IsRow() { InsertAscending(panels, k - 1, rows); }
  }

  lemma {:induction false} SortedRowsMembers(panels: seq<Panel>, k: nat, r: nat)
    requires k <= |panels|
    ensures r in SortedRows(panels, k) <==> r < k && panels[r].IsRow()
  {
    if k > 0 {
      SortedRowsMembers(panels, k - 1, r);
      if panels[k - 1].IsRow() { InsertMembers(panels, k - 1, SortedRows(panels, k - 1), r); }
    }
  }

  lemma SortedRowsAreTheRows(panels: seq<Panel>, k: nat)
    requires k <= |panels|
    ensures forall i :: 0 <= i < |SortedRows(panels, k)| ==> panels[SortedRows(panels, k)[i]].IsRow()
    ensures forall r: nat :: r < k && panels[r].IsRow() ==> r in SortedRows(panels, k)
  {
    var rows := SortedRows(panels, k);
    forall i | 0 <= i < |rows| ensures panels[rows[i]].IsRow() { SortedRowsMembers(panels, k, rows[i]); }
    forall r: nat | r < k && panels[r].IsRow() ensures r in rows { SortedRowsMembers(panels, k, r); }
  }

  /** The panels that are not rows and whose y lies in [y0, y1), among the first `k`, in list order. */
  function InBand(panels: seq<Panel>, y0: int, y1: int, k: nat): (out: seq<nat>)
    requires k <= |panels|
    ensures Indices(out, k)
  {
    if k == 0 then []
    else
      var rest := InBand(panels, y0, y1, k - 1);
      if !panels[k - 1].IsRow() && y0 <= panels[k - 1].pos.y < y1 then rest + [k - 1] else rest
  }

  lemma {:induction false} InBandMembers(panels: seq<Panel>, y0: int, y1: int, k: nat, m: nat)
    requires k <= |panels|
    ensures m in InBand(panels, y0, y1, k) <==> m < k && !panels[m].IsRow() && y0 <= panels[m].pos.y < y1
  {
    if k > 0 { InBandMembers(panels, y0, y1, k - 1, m); }
  }

  lemma {:induction false} InBandInOrder(panels: seq<Panel>, y0: int, y1: int, k: nat)
    requires k <= |panels|
    ensures forall i, j :: 0 <= i < j < |InBand(panels, y0, y1, k)| ==>
              InBand(panels, y0, y1, k)[i] < InBand(panels, y0, y1, k)[j]
  {
    if k > 0 { InBandInOrder(panels, y0, y1, k - 1); }
  }

  /** The members of the band of the i-th row: a collapsed row has none at top level. */
  function BandMembers(panels: seq<Panel>, rows: seq<nat>, i: nat): seq<nat>
    requires i < |rows| && Indices(rows, |panels|)
  {
    if panels[rows[i]].collapsed then []
    else InBand(panels, panels[rows[i]].pos.y, BandEnd(panels, rows, i), |panels|)
  }

  /** A band ends where the next row begins; the last one ends far below. */
  function BandEnd(panels: seq<Panel>, rows: seq<nat>, i: nat): int
    requires i < |rows| && Indices(rows, |panels|)
  {
    if i + 1 < |rows| then panels[rows[i + 1]].pos.y else BOTTOM
  }

  lemma BandBounds(panels: seq<Panel>, rows: seq<nat>, i: nat, m: nat)
    requires i < |rows| && Ascending(panels, rows) && m in BandMembers(panels, rows, i)
    ensures m < |panels| && !panels[m].IsRow() && panels[rows[i]].pos.y <= panels[m].pos.y
    ensures forall j :: i < j < |rows| ==> panels[m].pos.y < panels[rows[j]].pos.y
  {
    InBandMembers(panels, panels[rows[i]].pos.y, BandEnd(panels, rows, i), |panels|, m);
    forall j | i < j < |rows| ensures panels[m].pos.y < panels[rows[j]].pos.y {
      if i + 1 < j { assert Above(panels, rows[i + 1], rows[j]); }
    }
  }

  lemma BandInOrder(panels: seq<Panel>, rows: seq<nat>, i: nat)
    requires i < |rows| && Indices(rows, |panels|)
    ensures Distinct(BandMembers(panels, rows, i)) && Indices(BandMembers(panels, rows, i), |panels|)
    ensures var ms := BandMembers(panels, rows, i); forall a, b :: 0 <= a < b < |ms| ==> ms[a] < ms[b]
  {
    InBandInOrder(panels, panels[rows[i]].pos.y, BandEnd(panels, rows, i), |panels|);
  }

  lemma BandsDisjoint(panels: seq<Panel>, rows: seq<nat>, i: nat, j: nat, m: nat)
    requires i < |rows| && j < |rows| && Ascending(panels, rows)
    requires m in BandMembers(panels, rows, i) && m in BandMembers(panels, rows, j)
    ensures i == j
  {
    BandBounds(panels, rows, i, m);
    BandBounds(panels, rows, j, m);
  }

  /** The position of the row with the given id, from position `i` on. */
  function Find(panels: seq<Panel>, rows: seq<nat>, rid: int, i: nat): (k: int)
    requires i <= |rows| && Indices(rows, |panels|)
    ensures k == -1 || (i <= k < |rows| && panels[rows[k]].id == rid)
    ensures k == -1 ==> forall j :: i <= j < |rows| ==> panels[rows[j]].id != rid
    decreases |rows| - i
  {
    if i == |rows| then -1 else if panels[rows[i]].id == rid then i else Find(panels, rows, rid, i + 1)
  }

  function MembersOf(panels: seq<Panel>, rows: seq<nat>, rid: int): seq<nat>
    requires Indices(rows, |panels|)
  {
    var k := Find(panels, rows, rid, 0);
    if k == -1 then [] else BandMembers(panels, rows, k)
  }

  function Gather(panels: seq<Panel>, rows: seq<nat>, group: seq<int>): seq<nat>
    requires Indices(rows, |panels|)
  {
    if group == [] then [] else MembersOf(panels, rows, group[0]) + Gather(panels, rows, group[1..])
  }

  /** The row id whose band a panel belongs to is unique. */
  lemma OwnerUnique(panels: seq<Panel>, rows: seq<nat>, r: int, q: int, m: nat)
    requires Ascending(panels, rows)
    ensures m in MembersOf(panels, rows, r) && m in MembersOf(panels, rows, q) ==> r == q
  {
    if m in MembersOf(panels, rows, r) && m in MembersOf(panels, rows, q) {
      BandsDisjoint(panels, rows, Find(panels, rows, r, 0), Find(panels, rows, q, 0), m);
    }
  }

  lemma {:induction false} GatherMembers(panels: seq<Panel>, rows: seq<nat>, group: seq<int>)
    requires Ascending(panels, rows)
    requires forall i, j :: 0 <= i < j < |group| ==> group[i] != group[j]
    ensures Distinct(Gather(panels, rows, group))
    ensures forall m :: m in Gather(panels, rows, group) <==> exists r :: r in group && m in MembersOf(panels, rows, r)
    decreases |group|
  {
    if group != [] {
      var own, rest := MembersOf(panels, rows, group[0]), Gather(panels, rows, group[1..]);
      GatherMembers(panels, rows, group[1..]);
      forall m, r | m in own && r in group[1..] ensures m !in MembersOf(panels, rows, r) {
        OwnerUnique(panels, rows, group[0], r, m);
      }
      var k := Find(panels, rows, group[0], 0);
      if k != -1 { BandInOrder(panels, rows, k); }
      AppendDistinct(own, rest);
      forall m ensures m in own + rest <==> exists r :: r in group && m in MembersOf(panels, rows, r) {
        if m in own { assert group[0] in group; }
        if r :| r in group && m in MembersOf(panels, rows, r) { assert r == group[0] || r in group[1..]; }
      }
    }
  }

  lemma AppendDistinct(a: seq<nat>, b: seq<nat>)
    requires Distinct(a) && Distinct(b) && forall m :: m in a ==> m !in b
    ensures Distinct(a + b)
  {
    forall i, j | 0 <= i < j < |a + b| ensures (a + b)[i] != (a + b)[j] {
      if i < |a| <= j { assert a[i] in a && b[j - |a|] in b; }
    }
  }

  /** The rows whose headers are not absorbed by another section. */
  function KeptRows(panels: seq<Panel>, rows: seq<nat>): seq<nat>
    requires Indices(rows, |panels|)
  {
    if rows == [] then []
    else if panels[rows[0]].id in ABSORBED then KeptRows(panels, rows[1..])
    else [rows[0]] + KeptRows(panels, rows[1..])
  }

  lemma {:induction false} KeptRowsFacts(panels: seq<Panel>, rows: seq<nat>)
    requires Indices(rows, |panels|) && Distinct(rows)
    ensures Distinct(KeptRows(panels, rows)) && Indices(KeptRows(panels, rows), |panels|)
    ensures forall r :: r in KeptRows(panels, rows) <==> r in rows && panels[r].id !in ABSORBED
    decreases |rows|
  {
    if rows != [] {
      KeptRowsFacts(panels, rows[1..]);
      assert rows == [rows[0]] + rows[1..] && rows[0] !in rows[1..];
    }
  }

  /** The sections, top to bottom: every kept header with the members of its group. */
  function Sections(panels: seq<Panel>, rows: seq<nat>, kept: seq<nat>): seq<Section>
    requires Indices(rows, |panels|) && Indices(kept, |panels|)
  {
    seq(|kept|, k requires 0 <= k < |kept| =>
      Section(kept[k], Gather(panels, rows, Group(panels[kept[k]].id))))
  }

  lemma GroupFacts(rid: int)
    requires rid !in ABSORBED
    ensures forall i, j :: 0 <= i < j < |Group(rid)| ==> Group(rid)[i] != Group(rid)[j]
    ensures rid in REFERENCE ==> Group(rid) == [rid]
  {}

  lemma GroupsAreApart(r: int, q: int)
    requires r !in ABSORBED && q !in ABSORBED && r != q
    ensures forall x :: x in Group(r) ==> x !in Group(q)
  {}

  /** Every panel is in at most one section, once, and members of a reference section lie at or below its header. */
  ghost predicate ValidSections(panels: seq<Panel>, sections: seq<Section>) {
    && (forall k :: 0 <= k < |sections| ==> ValidSection(panels, sections[k]))
    && (forall j, k :: 0 <= j < k < |sections| ==> Apart(sections[j], sections[k]))
  }

  ghost predicate ValidSection(panels: seq<Panel>, s: Section) {
    && s.row < |panels| && panels[s.row].IsRow()
    && Distinct(s.members) && Indices(s.members, |panels|)
    && (forall i :: 0 <= i < |s.members| ==> !panels[s.members[i]].IsRow())
    && (panels[s.row].id in REFERENCE ==>
          && (forall i :: 0 <= i < |s.members| ==> panels[s.row].pos.y <= panels[s.members[i]].pos.y)
          && (panels[s.row].collapsed ==> s.members == []))
  }

  ghost predicate Apart(s: Section, t: Section) {
    s.row != t.row && forall m :: m in s.members ==> m !in t.members
  }

  lemma GatheredPanel(panels: seq<Panel>, rows: seq<nat>, group: seq<int>, m: nat) returns (r: int)
    requires Ascending(panels, rows) && m in Gather(panels, rows, group)
    requires forall i, j :: 0 <= i < j < |group| ==> group[i] != group[j]
    ensures r in group && m in MembersOf(panels, rows, r)
    ensures m < |panels| && !panels[m].IsRow()
    ensures exists k :: 0 <= k < |rows| && panels[rows[k]].id == r
              && panels[rows[k]].pos.y <= panels[m].pos.y && !panels[rows[k]].collapsed
  {
    GatherMembers(panels, rows, group);
    r :| r in group && m in MembersOf(panels, rows, r);
    BandBounds(panels, rows, Find(panels, rows, r, 0), m);
  }

  lemma SectionIsValid(panels: seq<Panel>, rows: seq<nat>, s: Section, group: seq<int>)
    requires Ascending(panels, rows) && UniqueIds(panels)
    requires forall i :: 0 <= i < |rows| ==> panels[rows[i]].IsRow()
    requires s.row in rows && s.members == Gather(panels, rows, group)
    requires forall i, j :: 0 <= i < j < |group| ==> group[i] != group[j]
    requires panels[s.row].id in REFERENCE ==> group == [panels[s.row].id]
    ensures ValidSection(panels, s)
  {
    assert Distinct(s.members) by { GatherMembers(panels, rows, group); }
    forall m | m in s.members ensures MemberOk(panels, s.row, m) { MemberIsOk(panels, rows, s.row, group, m); }
    assert forall i :: 0 <= i < |s.members| ==> MemberOk(panels, s.row, s.members[i]);
    if s.members != [] { assert MemberOk(panels, s.row, s.members[0]); }
  }

  /** What a member must be: not a row and, in a reference section, not above the header, which is open. */
  ghost predicate MemberOk(panels: seq<Panel>, row: nat, m: nat)
    requires row < |panels|
  {
    && m < |panels| && !panels[m].IsRow()
    && (panels[row].id in REFERENCE ==> panels[row].pos.y <= panels[m].pos.y && !panels[row].collapsed)
  }

  lemma MemberIsOk(panels: seq<Panel>, rows: seq<nat>, row: nat, group: seq<int>, m: nat)
    requires Ascending(panels, rows) && UniqueIds(panels) && row in rows && m in Gather(panels, rows, group)
    requires forall i, j :: 0 <= i < j < |group| ==> group[i] != group[j]
    requires panels[row].id in REFERENCE ==> group == [panels[row].id]
    ensures MemberOk(panels, row, m)
  {
    var r := GatheredPanel(panels, rows, group, m);
    var k :| 0 <= k < |rows| && panels[rows[k]].id == r
             && panels[rows[k]].pos.y <= panels[m].pos.y && !panels[rows[k]].collapsed;
    if panels[row].id in REFERENCE { assert panels[rows[k]].id == panels[row].id && rows[k] == row; }
  }

  lemma SectionsAreApart(panels: seq<Panel>, rows: seq<nat>, s: Section, t: Section, g: seq<int>, h: seq<int>)
    requires Ascending(panels, rows) && s.row != t.row
    requires s.members == Gather(panels, rows, g) && t.members == Gather(panels, rows, h)
    requires forall i, j :: 0 <= i < j < |g| ==> g[i] != g[j]
    requires forall i, j :: 0 <= i < j < |h| ==> h[i] != h[j]
    requires forall x :: x in g ==> x !in h
    ensures Apart(s, t)
  {
    GatherMembers(panels, rows, g);
    GatherMembers(panels, rows, h);
    forall m: nat, x, y | x in g && y in h
      ensures m in MembersOf(panels, rows, x) ==> m !in MembersOf(panels, rows, y)
    {
      OwnerUnique(panels, rows, x, y, m);
    }
  }

  /** The rows of a list of panels, top to bottom, and those that keep their header. */
  ghost predicate Headers(panels: seq<Panel>, rows: seq<nat>, kept: seq<nat>) {
    && rows == SortedRows(panels, |panels|)
    && kept == KeptRows(panels, rows)
    && Indices(kept, |panels|)
  }

  lemma SectionsAreValid(panels: seq<Panel>, rows: seq<nat>, kept: seq<nat>)
    requires UniqueIds(panels) && Headers(panels, rows, kept)
    ensures ValidSections(panels, Sections(panels, rows, kept))
  {
    var ss := Sections(panels, rows, kept);
    SortedRowsAscend(panels, |panels|);
    SortedRowsAreTheRows(panels, |panels|);
    KeptRowsFacts(panels, rows);
    forall k | 0 <= k < |ss| ensures ValidSection(panels, ss[k]) {
      assert kept[k] in kept;
      var rid := panels[kept[k]].id;
      GroupFacts(rid);
      SectionIsValid(panels, rows, ss[k], Group(rid));
    }
    forall j, k | 0 <= j < k < |ss| ensures Apart(ss[j], ss[k]) {
      assert kept[j] in kept && kept[k] in kept;
      var r, q := panels[kept[j]].id, panels[kept[k]].id;
      TwoGroupsAreApart(panels, rows, ss[j], ss[k], r, q);
    }
  }

  lemma TwoGroupsAreApart(panels: seq<Panel>, rows: seq<nat>, s: Section, t: Section, r: int, q: int)
    requires Ascending(panels, rows) && s.row != t.row
    requires r !in ABSORBED && q !in ABSORBED && r != q
    requires s.members == Gather(panels, rows, Group(r)) && t.members == Gather(panels, rows, Group(q))
    ensures Apart(s, t)
  {
    GroupFacts(r);
    GroupFacts(q);
    GroupsAreApart(r, q);
    SectionsAreApart(panels, rows, s, t, Group(r), Group(q));
  }

  /** Where the members of a row end up. */
  function HeaderFor(rid: int): int {
    if rid in {64, 68, 58} then 27 else if rid in {230, 290} then 200 else rid
  }

  lemma HeaderTakesGroup(rid: int)
    ensures HeaderFor(rid) !in ABSORBED && rid in Group(HeaderFor(rid))
  {}

  lemma BandMemberIsGathered(panels: seq<Panel>, rows: seq<nat>, i: nat, m: nat, group: seq<int>)
    requires Ascending(panels, rows) && UniqueIds(panels)
    requires i < |rows| && m in BandMembers(panels, rows, i) && panels[rows[i]].id in group
    requires forall j, k :: 0 <= j < k < |group| ==> group[j] != group[k]
    ensures m in Gather(panels, rows, group)
  {
    MembersOfBand(panels, rows, i);
    GatherMembers(panels, rows, group);
  }

  lemma MembersOfBand(panels: seq<Panel>, rows: seq<nat>, i: nat)
    requires Ascending(panels, rows) && UniqueIds(panels) && i < |rows|
    ensures MembersOf(panels, rows, panels[rows[i]].id) == BandMembers(panels, rows, i)
  {
    var k := Find(panels, rows, panels[rows[i]].id, 0);
    assert rows[k] == rows[i];
    assert k == i;
  }

  /** No panel of an open band is lost: it ends up in a section, even when its own header was absorbed. */
  lemma EveryBandMemberHasASection(panels: seq<Panel>, rows: seq<nat>, kept: seq<nat>, i: nat, m: nat)
    requires UniqueIds(panels) && Headers(panels, rows, kept)
    requires Find(panels, rows, 27, 0) != -1 && Find(panels, rows, 200, 0) != -1
    requires i < |rows| && m in BandMembers(panels, rows, i)
    ensures exists k :: 0 <= k < |kept| && m in Sections(panels, rows, kept)[k].members
  {
    SortedRowsAscend(panels, |panels|);
    KeptRowsFacts(panels, rows);
    var header := HeaderFor(panels[rows[i]].id);
    HeaderTakesGroup(panels[rows[i]].id);
    var k := KeptIndex(panels, rows, kept, header);
    GroupFacts(header);
    BandMemberIsGathered(panels, rows, i, m, Group(header));
    SectionMembers(panels, rows, kept, k, header);
  }

  lemma SectionMembers(panels: seq<Panel>, rows: seq<nat>, kept: seq<nat>, k: nat, header: int)
    requires Indices(rows, |panels|) && Indices(kept, |panels|) && k < |kept| && panels[kept[k]].id == header
    ensures Sections(panels, rows, kept)[k].members == Gather(panels, rows, Group(header))
  {}

  lemma KeptIndex(panels: seq<Panel>, rows: seq<nat>, kept: seq<nat>, header: int) returns (k: nat)
    requires Indices(rows, |panels|) && Indices(kept, |panels|)
    requires forall r :: r in kept <==> r in rows && panels[r].id !in ABSORBED
    requires header !in ABSORBED && Find(panels, rows, header, 0) != -1
    ensures k < |kept| && panels[kept[k]].id == header
  {
    var j := Find(panels, rows, header, 0);
    assert rows[j] in kept;
    k :| 0 <= k < |kept| && kept[k] == rows[j];
  }

  // ------------------------------------------------------ which panel goes where

  /** Row `r` owns panel `m`: it is the last row, from top to bottom and in list order, that does not begin below
      it.  Panels far below the last row are owned by none. */
  ghost predicate Owner(panels: seq<Panel>, r: nat, m: nat) {
    && r < |panels| && m < |panels| && panels[r].kind == "row" && panels[m].kind != "row"
    && panels[r].pos.y <= panels[m].pos.y
    && (forall q :: 0 <= q < |panels| && panels[q].kind == "row" && q != r ==>
          panels[m].pos.y < panels[q].pos.y || Above(panels, q, r))
    && (panels[m].pos.y < 1_000_000_000 || HasRowBelow(panels, m))
  }

  ghost predicate HasRowBelow(panels: seq<Panel>, m: nat)
    requires m < |panels|
  {
    exists q :: 0 <= q < |panels| && panels[q].kind == "row" && panels[m].pos.y < panels[q].pos.y
  }

  /** The rows are all there, each once and in order. */
  ghost predicate AllRows(panels: seq<Panel>, rows: seq<nat>) {
    && Ascending(panels, rows)
    && (forall i :: 0 <= i < |rows| ==> panels[rows[i]].IsRow())
    && (forall r: nat :: r < |panels| && panels[r].IsRow() ==> r in rows)
  }

  lemma BandIsOwned(panels: seq<Panel>, rows: seq<nat>, i: nat, m: nat)
    requires AllRows(panels, rows) && i < |rows| && m in BandMembers(panels, rows, i)
    ensures Owner(panels, rows[i], m) && !panels[rows[i]].collapsed
  {
    BandBounds(panels, rows, i, m);
    InBandMembers(panels, panels[rows[i]].pos.y, BandEnd(panels, rows, i), |panels|, m);
    forall q | 0 <= q < |panels| && panels[q].IsRow() && q != rows[i]
      ensures panels[m].pos.y < panels[q].pos.y || Above(panels, q, rows[i])
    {
      var j :| 0 <= j < |rows| && rows[j] == q;
      if j < i { assert Above(panels, rows[j], rows[i]); }
    }
    if i + 1 < |rows| { assert panels[rows[i + 1]].IsRow(); }
  }

  lemma OwnedIsInBand(panels: seq<Panel>, rows: seq<nat>, i: nat, m: nat)
    requires AllRows(panels, rows) && i < |rows| && Owner(panels, rows[i], m) && !panels[rows[i]].collapsed
    ensures m in BandMembers(panels, rows, i)
  {
    var r := rows[i];
    InBandMembers(panels, panels[r].pos.y, BandEnd(panels, rows, i), |panels|, m);
    if i + 1 < |rows| {
      assert Above(panels, r, rows[i + 1]) && panels[rows[i + 1]].IsRow();
    } else if HasRowBelow(panels, m) {
      var q :| 0 <= q < |panels| && panels[q].IsRow() && panels[m].pos.y < panels[q].pos.y;
      var j :| 0 <= j < |rows| && rows[j] == q;
      if j < i { assert Above(panels, rows[j], rows[i]); }
    }
  }

  /** The ids whose members end up under a kept header: four rows under 27, three under 200, and only its own
      row under any other. */
  lemma GroupExactly(g: int, x: int)
    requires g !in ABSORBED
    ensures x in Group(g) <==> HeaderFor(x) == g
    ensures Group(27) == [27, 64, 68, 58] && Group(200) == [200, 230, 290]
    ensures g != 27 && g != 200 ==> Group(g) == [g]
  {}

  /** The row `r` is open, owns panel `m` and is merged under header `g`. */
  ghost predicate OwnedUnder(panels: seq<Panel>, r: nat, m: nat, g: int) {
    Owner(panels, r, m) && !panels[r].collapsed && HeaderFor(panels[r].id) == g
  }

  /** A panel is in a section exactly when the row that owns it is open and is merged under the section's header. */
  lemma SectionExactly(panels: seq<Panel>, rows: seq<nat>, kept: seq<nat>, k: nat, m: nat)
    requires UniqueIds(panels) && Headers(panels, rows, kept) && k < |kept|
    ensures m in Sections(panels, rows, kept)[k].members <==>
            exists r: nat :: OwnedUnder(panels, r, m, panels[kept[k]].id)
  {
    SortedRowsAscend(panels, |panels|);
    SortedRowsAreTheRows(panels, |panels|);
    KeptRowsFacts(panels, rows);
    assert kept[k] in kept;
    GatheredExactly(panels, rows, panels[kept[k]].id, m);
  }

  lemma GatheredExactly(panels: seq<Panel>, rows: seq<nat>, g: int, m: nat)
    requires AllRows(panels, rows) && UniqueIds(panels) && g !in ABSORBED
    ensures m in Gather(panels, rows, Group(g)) <==> exists r: nat :: OwnedUnder(panels, r, m, g)
  {
    GroupFacts(g);
    GatherMembers(panels, rows, Group(g));
    if m in Gather(panels, rows, Group(g)) {
      var x :| x in Group(g) && m in MembersOf(panels, rows, x);
      var i := Find(panels, rows, x, 0);
      BandIsOwned(panels, rows, i, m);
      GroupExactly(g, x);
      assert OwnedUnder(panels, rows[i], m, g);
    }
    if r: nat :| OwnedUnder(panels, r, m, g) {
      OwnedIsMember(panels, rows, r, m);
      GroupExactly(g, panels[r].id);
    }
  }

  lemma OwnedIsMember(panels: seq<Panel>, rows: seq<nat>, r: nat, m: nat)
    requires AllRows(panels, rows) && UniqueIds(panels) && Owner(panels, r, m) && !panels[r].collapsed
    ensures m in MembersOf(panels, rows, panels[r].id)
  {
    var i :| 0 <= i < |rows| && rows[i] == r;
    OwnedIsInBand(panels, rows, i, m);
    MembersOfBand(panels, rows, i);
  }

  /** Inside a merged section the members come row by row, in the order of the merge. */
  lemma {:induction false} GatherConcat(panels: seq<Panel>, rows: seq<nat>, a: seq<int>, b: seq<int>)
    requires Indices(rows, |panels|)
    ensures Gather(panels, rows, a + b) == Gather(panels, rows, a) + Gather(panels, rows, b)
    decreases |a|
  {
    if a == [] {
      assert a + b == b;
    } else {
      assert (a + b)[1..] == a[1..] + b;
      GatherConcat(panels, rows, a[1..], b);
    }
  }

  lemma GatherOne(panels: seq<Panel>, rows: seq<nat>, x: int)
    requires Indices(rows, |panels|)
    ensures Gather(panels, rows, [x]) == MembersOf(panels, rows, x)
  {
    assert [x][1..] == [];
  }

  /** The sections keep the order of their headers. */
  lemma {:induction false} KeptInOrder(panels: seq<Panel>, rows: seq<nat>)
    requires Ascending(panels, rows)
    ensures Ascending(panels, KeptRows(panels, rows))
    decreases |rows|
  {
    if rows != [] {
      KeptInOrder(panels, rows[1..]);
      var rest := KeptRows(panels, rows[1..]);
      assert Distinct(rows[1..]);
      KeptRowsFacts(panels, rows[1..]);
      forall i | 0 <= i < |rest| ensures Above(panels, rows[0], rest[i]) {
        assert rest[i] in rest;
        var j :| 0 <= j < |rows[1..]| && rows[1..][j] == rest[i];
        assert Above(panels, rows[0], rows[j + 1]);
      }
      AscendingCons(panels, rows[0], rest);
    }
  }

  // -------------------------------------------------------------------- layout

  /** The width a re-flowed panel gets. */
  function CleanWidth(p: Panel): (w: int)
    ensures w in {6, 8, 12, 24}
  {
    if p.kind == "stat" || p.kind == "gauge" then 6
    else if p.pos.w >= 20 then 24
    else if p.pos.w in {6, 8, 12} then p.pos.w
    else if p.pos.w > 8 then 12 else 8
  }

  /** Four stats or gauges fill a row; panels of 20 columns or more take a whole one; 6, 8 and 12 columns are kept,
      and other widths become 8, or 12 when they are over 8. */
  lemma CleanWidths(p: Panel)
    ensures p.kind in {"stat", "gauge"} ==> 4 * CleanWidth(p) == 24
    ensures p.kind !in {"stat", "gauge"} ==>
              && (p.pos.w >= 20 ==> CleanWidth(p) == 24)
              && (p.pos.w in {6, 8, 12} ==> CleanWidth(p) == p.pos.w)
              && (p.pos.w <= 8 && p.pos.w != 6 ==> CleanWidth(p) == 8)
              && (9 <= p.pos.w <= 19 ==> CleanWidth(p) == 12)
  {}

  /** `a` comes before `b` when rows are read from top to bottom and left to right, without touching it. */
  predicate ReadsBefore(a: GridPos, b: GridPos) {
    a.y + a.h <= b.y || (a.y == b.y && a.x + a.w <= b.x)
  }

  /** The places of a re-flowed section, in member order. */
  ghost predicate Flowed(places: seq<GridPos>, top: int, bottom: int) {
    && (forall i :: 0 <= i < |places| ==>
          && 0 <= places[i].x && places[i].x + places[i].w <= 24 && places[i].h == 8
          && top <= places[i].y && places[i].y + places[i].h <= bottom)
    && (forall i, j :: 0 <= i < j < |places| ==> ReadsBefore(places[i], places[j]))
  }

  function Positions(panels: seq<Panel>, members: seq<nat>): seq<GridPos>
    requires Indices(members, |panels|)
  {
    seq(|members|, i requires 0 <= i < |members| => panels[members[i]].pos)
  }

  function ShiftedBy(p: GridPos, dy: int): GridPos { p.(y := p.y + dy) }

  /** Only positions of the panels in `changed` differ. */
  ghost predicate OnlyMoved(before: seq<Panel>, after: seq<Panel>, changed: set<nat>) {
    && |before| == |after|
    && (forall p :: 0 <= p < |before| ==> after[p] == before[p].(pos := after[p].pos))
    && (forall p :: 0 <= p < |before| && p !in changed ==> after[p] == before[p])
  }

  function PanelsOf(s: Section): set<nat> { {s.row} + set m | m in s.members }

  /** Where a panel of width `w` goes after the panel at `p`: beside it if there is room, else at the
      start of the next row. */
  function NextPlace(p: GridPos, w: int): GridPos {
    if p.x + p.w + w <= 24 then GridPos(p.x + p.w, p.y, w, 8) else GridPos(0, p.y + 8, w, 8)
  }

  /** The places are packed from the first row on, and `bottom` is the edge of the last row. */
  ghost predicate Packed(places: seq<GridPos>, top: int, bottom: int) {
    && (places != [] ==> places[0] == GridPos(0, top, places[0].w, 8))
    && (forall i :: 0 < i < |places| ==> places[i] == NextPlace(places[i - 1], places[i].w))
    && bottom == if places == [] then top else places[|places| - 1].y + 8
  }

  ghost predicate WidthsOk(places: seq<GridPos>) {
    forall i :: 0 <= i < |places| ==> 0 < places[i].w <= COLUMNS
  }

  lemma {:induction false} PackedFlows(places: seq<GridPos>, top: int, bottom: int)
    requires Packed(places, top, bottom) && WidthsOk(places)
    ensures Flowed(places, top, bottom) && top <= bottom
  {
    if places != [] {
      var n := |places| - 1;
      var rest := places[..n];
      var end := if n == 0 then top else places[n - 1].y + ROW_HEIGHT;
      assert Packed(rest, top, end);
      PackedFlows(rest, top, end);
      if n > 0 { LastReadsLast(places, top, end); }
    }
  }

  lemma LastReadsLast(places: seq<GridPos>, top: int, end: int)
    requires |places| > 1 && WidthsOk(places)
    requires places[|places| - 1] == NextPlace(places[|places| - 2], places[|places| - 1].w)
    requires end == places[|places| - 2].y + ROW_HEIGHT && Flowed(places[..|places| - 1], top, end)
    ensures Flowed(places, top, places[|places| - 1].y + ROW_HEIGHT)
  {
    var n := |places| - 1;
    var rest := places[..n];
    assert forall i :: 0 <= i < n ==> places[i] == rest[i];
    forall i | 0 <= i < n ensures ReadsBefore(places[i], places[n]) {
      if i < n - 1 { assert ReadsBefore(rest[i], rest[n - 1]); }
    }
  }

  /** `bottom` is the lowest edge among the places. */
  ghost predicate IsLowestEdge(places: seq<GridPos>, bottom: int) {
    && (forall i :: 0 <= i < |places| ==> places[i].y + places[i].h <= bottom)
    && (exists i :: 0 <= i < |places| && places[i].y + places[i].h == bottom)
  }

  /** Exactly where a section is put: a reference section is moved as a block so that its header is at
      `top`, any other is packed below a full-width header; `bottom` is where the next one begins. */
  ghost predicate LaidOut(before: seq<Panel>, after: seq<Panel>, s: Section, top: int, bottom: int)
    requires s.row < |before| == |after| && Indices(s.members, |after|)
  {
    var header, places := after[s.row].pos, Positions(after, s.members);
    if before[s.row].id in REFERENCE then
      var dy := top - before[s.row].pos.y;
      && header == ShiftedBy(before[s.row].pos, dy)
      && (forall i :: 0 <= i < |places| ==> places[i] == ShiftedBy(before[s.members[i]].pos, dy))
      && if places == [] then bottom == top + 1 else IsLowestEdge(places, bottom)
    else
      && header == GridPos(0, top, 24, 1)
      && Packed(places, top + 1, bottom)
      && forall i :: 0 <= i < |places| ==> places[i].w == CleanWidth(before[s.members[i]])
  }

  /** The section reaches from `top` to `bottom` and no further: its header begins at `top`, no panel
      leaves the band, and some panel ends at `bottom`. */
  ghost predicate FillsBand(after: seq<Panel>, s: Section, top: int, bottom: int)
    requires s.row < |after| && Indices(s.members, |after|)
  {
    var header, places := after[s.row].pos, Positions(after, s.members);
    && top < bottom && header.y == top && header.y + header.h <= bottom
    && (forall i :: 0 <= i < |places| ==> top <= places[i].y && places[i].y + places[i].h <= bottom)
    && if places == [] then header.y + header.h == bottom else IsLowestEdge(places, bottom)
  }

  /** What a section looks like once it fills the band from `top` to `bottom`. */
  ghost predicate SectionPlaced(before: seq<Panel>, after: seq<Panel>, s: Section, top: int, bottom: int)
    requires s.row < |before| == |after| && Indices(s.members, |after|)
  {
    LaidOut(before, after, s, top, bottom) && FillsBand(after, s, top, bottom)
  }

  /** In a reference section, whose heights are taken as they are, the header is one unit high
      and the panels have a positive height. */
  ghost predicate Heights(panels: seq<Panel>, s: Section)
    requires s.row < |panels| && Indices(s.members, |panels|)
  {
    panels[s.row].id in REFERENCE ==>
      panels[s.row].pos.h == 1 && forall i :: 0 <= i < |s.members| ==> panels[s.members[i]].pos.h >= 1
  }

  lemma LaidOutFillsBand(before: seq<Panel>, after: seq<Panel>, s: Section, top: int, bottom: int)
    requires |before| == |after| && ValidSection(before, s) && Heights(before, s)
    requires LaidOut(before, after, s, top, bottom)
    ensures SectionPlaced(before, after, s, top, bottom)
  {
    if before[s.row].id in REFERENCE {
      MovedFillsBand(before, after, s, top, bottom);
    } else {
      var places := Positions(after, s.members);
      PackedFlows(places, top + 1, bottom);
      if places != [] { assert places[|places| - 1].y + places[|places| - 1].h == bottom; }
    }
  }

  lemma MovedFillsBand(before: seq<Panel>, after: seq<Panel>, s: Section, top: int, bottom: int)
    requires |before| == |after| && ValidSection(before, s) && Heights(before, s)
    requires LaidOut(before, after, s, top, bottom) && before[s.row].id in REFERENCE
    ensures FillsBand(after, s, top, bottom)
  {
    var places := Positions(after, s.members);
    forall i | 0 <= i < |places| ensures top <= places[i].y && places[i].h >= 1 {
      assert before[s.row].pos.y <= before[s.members[i]].pos.y;
    }
    if places != [] { assert top < places[0].y + places[0].h <= bottom; }
  }

  class Board {
    var panels: seq<Panel>

    constructor (ps: seq<Panel>)
      ensures panels == ps
    {
      panels := ps;
    }

    /** Re-flows the members below `startY`; returns the next free y. */
    method Reflow(members: seq<nat>, startY: int) returns (y: int)
      requires Distinct(members) && Indices(members, |panels|)
      modifies this
      ensures OnlyMoved(old(panels), panels, set m | m in members)
      ensures Packed(Positions(panels, members), startY, y)
      ensures forall i :: 0 <= i < |members| ==> panels[members[i]].pos.w == CleanWidth(old(panels)[members[i]])
    {
      y := startY;
      var x := 0;
      ghost var places: seq<GridPos> := [];
      for k := 0 to |members|
        invariant Placing(old(panels), panels, members, k, places)
        invariant Cursor(places, startY, x, y)
        invariant forall i :: 0 <= i < k ==> places[i].w == CleanWidth(old(panels)[members[i]])
      {
        var m := members[k];
        assert panels[m] == old(panels)[m];
        var w := CleanWidth(panels[m]);
        var place;
        x, y, place := Advance(x, y, w, places, startY);
        PlaceOne(old(panels), panels, members, k, places, place);
        panels := panels[m := panels[m].(pos := place)];
        places := places + [place];
      }
      if x > 0 { y := y + ROW_HEIGHT; }
      PlacedAll(old(panels), panels, members, places);
    }

    method ShiftBlock(members: seq<nat>, dy: int)
      requires Distinct(members) && Indices(members, |panels|)
      modifies this
      ensures OnlyMoved(old(panels), panels, set m | m in members)
      ensures forall i :: 0 <= i < |members| ==>
                panels[members[i]].pos == ShiftedBy(old(panels)[members[i]].pos, dy)
    {
      ghost var places: seq<GridPos> := [];
      for k := 0 to |members|
        invariant Placing(old(panels), panels, members, k, places)
        invariant forall i :: 0 <= i < k ==> places[i] == ShiftedBy(old(panels)[members[i]].pos, dy)
      {
        var m := members[k];
        assert panels[m] == old(panels)[m];
        var place := ShiftedBy(panels[m].pos, dy);
        PlaceOne(old(panels), panels, members, k, places, place);
        panels := panels[m := panels[m].(pos := place)];
        places := places + [place];
      }
      PlacedAll(old(panels), panels, members, places);
    }

    method LowestEdge(members: seq<nat>) returns (bottom: int)
      requires members != [] && Indices(members, |panels|)
      ensures IsLowestEdge(Positions(panels, members), bottom)
    {
      ghost var places := Positions(panels, members);
      bottom := panels[members[0]].pos.y + panels[members[0]].pos.h;
      assert places[0].y + places[0].h == bottom;
      for k := 1 to |members|
        invariant forall i :: 0 <= i < k ==> places[i].y + places[i].h <= bottom
        invariant exists i :: 0 <= i < k && places[i].y + places[i].h == bottom
      {
        var edge := panels[members[k]].pos.y + panels[members[k]].pos.h;
        assert places[k].y + places[k].h == edge;
        if edge > bottom { bottom := edge; }
      }
    }

    /** Moves a reference section as a block so that its header sits at `top`. */
    method MoveSection(s: Section, top: int) returns (bottom: int)
      requires ValidSection(panels, s) && panels[s.row].id in REFERENCE
      modifies this
      ensures OnlyMoved(old(panels), panels, PanelsOf(s))
      ensures LaidOut(old(panels), panels, s, top, bottom)
    {
      var r := s.row;
      var dy := top - panels[r].pos.y;
      panels := panels[r := panels[r].(pos := ShiftedBy(panels[r].pos, dy))];
      if panels[r].collapsed || s.members == [] { return top + 1; }
      ShiftBlock(s.members, dy);
      bottom := LowestEdge(s.members);
    }

    /** Moves a reference section, or re-flows any other below a full-width header. */
    method PlaceSection(s: Section, top: int) returns (bottom: int)
      requires ValidSection(panels, s)
      modifies this
      ensures OnlyMoved(old(panels), panels, PanelsOf(s))
      ensures LaidOut(old(panels), panels, s, top, bottom)
    {
      var r := s.row;
      if panels[r].id in REFERENCE {
        bottom := MoveSection(s, top);
      } else {
        panels := panels[r := panels[r].(pos := GridPos(0, top, COLUMNS, 1))];
        bottom := Reflow(s.members, top + 1);
      }
    }

    /** Stacks the sections; `tops[k]` is where the k-th begins and `tops[k + 1]` where it ends. */
    method Stack(sections: seq<Section>) returns (ghost tops: seq<int>)
      requires ValidSections(panels, sections)
      modifies this
      ensures |tops| == |sections| + 1 && tops[0] == 0
      ensures |panels| == |old(panels)|
      ensures forall k :: 0 <= k < |sections| ==> LaidOut(old(panels), panels, sections[k], tops[k], tops[k + 1])
      ensures forall p :: 0 <= p < |panels| ==> panels[p] == old(panels)[p].(pos := panels[p].pos)
    {
      var curY := 0;
      tops := [0];
      for k := 0 to |sections|
        invariant |tops| == k + 1 && tops[0] == 0 && tops[k] == curY
        invariant |panels| == |old(panels)|
        invariant forall p :: 0 <= p < |panels| ==> panels[p] == old(panels)[p].(pos := panels[p].pos)
        invariant forall j :: 0 <= j < k ==> LaidOut(old(panels), panels, sections[j], tops[j], tops[j + 1])
        invariant forall j :: k <= j < |sections| ==> Untouched(old(panels), panels, sections[j])
      {
        ghost var before := panels;
        UntouchedIsValid(old(panels), panels, sections[k]);
        curY := PlaceSection(sections[k], curY);
        tops := tops + [curY];
        forall j | 0 <= j < k
          ensures LaidOut(old(panels), panels, sections[j], tops[j], tops[j + 1])
        {
          assert Apart(sections[j], sections[k]);
          PlacedStays(old(panels), before, panels, sections[j], sections[k], tops[j], tops[j + 1]);
        }
        forall j | k < j < |sections| ensures Untouched(old(panels), panels, sections[j]) {
          assert Apart(sections[k], sections[j]);
          UntouchedStays(old(panels), before, panels, sections[j], sections[k]);
        }
        PlacedFromUntouched(old(panels), before, panels, sections[k], tops[k], tops[k + 1]);
      }
    }

    method Dedupe(nested: seq<int>)
      modifies this
      ensures DedupedFrom(old(panels), nested, panels)
    {
      panels := DedupeIds(panels, nested);
    }

    /** Finds the sections and stacks them; fails when a header that others are merged into is missing. */
    method Arrange() returns (ok: bool, sections: seq<Section>, ghost tops: seq<int>)
      requires UniqueIds(panels)
      modifies this
      ensures |panels| == |old(panels)|
      ensures forall p :: 0 <= p < |panels| ==> panels[p] == old(panels)[p].(pos := panels[p].pos)
      ensures ok ==> exists rows, kept ::
                Headers(old(panels), rows, kept) && sections == Sections(old(panels), rows, kept)
      ensures ok ==> ValidSections(old(panels), sections) && |tops| == |sections| + 1 && tops[0] == 0
      ensures ok ==> forall k :: 0 <= k < |sections| ==> LaidOut(old(panels), panels, sections[k], tops[k], tops[k + 1])
      ensures !ok ==> panels == old(panels)
      ensures ok <==> HasRow(old(panels), 27) && HasRow(old(panels), 200)
    {
      sections, tops := [], [];
      var rows := SortedRows(panels, |panels|);
      SortedRowsAreTheRows(panels, |panels|);
      SortedRowsAscend(panels, |panels|);
      if Find(panels, rows, 27, 0) == -1 {
        MissingRow(panels, rows, 27);
        return false, sections, tops;
      }
      if Find(panels, rows, 200, 0) == -1 {
        MissingRow(panels, rows, 200);
        return false, sections, tops;
      }
      KeptRowsFacts(panels, rows);
      var kept := KeptRows(panels, rows);
      assert Headers(panels, rows, kept);
      sections := Sections(panels, rows, kept);
      SectionsAreValid(panels, rows, kept);
      tops := Stack(sections);
      ok := true;
    }

    /** The whole script up to the removal of the absorbed headers.  It fails, and
        writes nothing, when a header that others are merged into is missing. */
    method Normalize(nested: seq<int>)
      returns (ok: bool, sections: seq<Section>, ghost unique: seq<Panel>, ghost tops: seq<int>)
      modifies this
      ensures |unique| == |panels| == |old(panels)| && UniqueIds(panels)
      ensures forall p :: 0 <= p < |panels| ==> unique[p] == old(panels)[p].(id := unique[p].id)
      ensures forall p :: 0 <= p < |panels| ==> panels[p] == unique[p].(pos := panels[p].pos)
      ensures ok ==> exists rows, kept :: Headers(unique, rows, kept) && sections == Sections(unique, rows, kept)
      ensures ok ==> ValidSections(unique, sections) && |tops| == |sections| + 1 && tops[0] == 0
      ensures ok ==> forall k :: 0 <= k < |sections| ==> LaidOut(unique, panels, sections[k], tops[k], tops[k + 1])
      ensures ok ==> forall k :: 0 <= k < |sections| && Heights(unique, sections[k]) ==>
                SectionPlaced(unique, panels, sections[k], tops[k], tops[k + 1])
      ensures !ok ==> panels == unique
      ensures ok <==> HasRow(unique, 27) && HasRow(unique, 200)
    {
      Dedupe(nested);
      unique := panels;
      ok, sections, tops := Arrange();
      if ok {
        forall k | 0 <= k < |sections| && Heights(unique, sections[k])
          ensures SectionPlaced(unique, panels, sections[k], tops[k], tops[k + 1])
        {
          LaidOutFillsBand(unique, panels, sections[k], tops[k], tops[k + 1]);
        }
      }
    }
  }

  ghost predicate HasRow(panels: seq<Panel>, id: int) {
    exists p :: 0 <= p < |panels| && panels[p].kind == "row" && panels[p].id == id
  }

  /** All ids distinct; the first row with an id keeps it, or the first panel when no row has it; the changed
      ids are the next ones above all top-level and nested ids; nothing but ids changes. */
  ghost predicate DedupedFrom(before: seq<Panel>, nested: seq<int>, after: seq<Panel>) {
    && |after| == |before| && UniqueIds(after)
    && (forall p :: 0 <= p < |after| ==> after[p] == before[p].(id := after[p].id))
    && (forall p :: 0 <= p < |after| && KeepsId(before, p, |before|) ==> after[p].id == before[p].id)
    && (forall p :: 0 <= p < |after| && after[p].id != before[p].id ==>
          0 < after[p].id - MaxId(before, nested) <= |Changed(Ids(before), Ids(after))|)
    && (UniqueIds(before) ==> after == before)
  }

  /** Gives a fresh id to all but one of the panels that share an id; a row keeps its id against other panels. */
  method DedupeIds(before: seq<Panel>, nested: seq<int>) returns (panels: seq<Panel>)
    ensures DedupedFrom(before, nested, panels)
  {
    panels := before;
    var maxId := MaxId(panels, nested);
    ghost var top, ids := maxId, Ids(panels);
    var seen: map<int, nat> := map[];
    FixingStarts(before, top);
    for k := 0 to |before|
      invariant |panels| == |before| && top <= maxId
      invariant Fixing(before, panels, ids, seen, top, maxId, k)
    {
      panels, ids, seen, maxId := DedupeOne(before, panels, ids, seen, top, maxId, k);
    }
    FixedIsDeduped(before, nested, panels, ids, seen, maxId);
  }

  method DedupeOne(ghost before: seq<Panel>, panels: seq<Panel>, ghost ids: seq<int>, seen: map<int, nat>,
                   ghost top: int, maxId: int, k: nat)
    returns (fixed: seq<Panel>, ghost newIds: seq<int>, holders: map<int, nat>, newMax: int)
    requires Fixing(before, panels, ids, seen, top, maxId, k) && k < |panels| && top <= maxId
    ensures Fixing(before, fixed, newIds, holders, top, newMax, k + 1) && maxId <= newMax
  {
    fixed, newIds, holders, newMax := panels, ids, seen, maxId;
    var pid := panels[k].id;
    if pid !in seen {
      FixNone(before, panels, ids, seen, top, maxId, k);
      holders := seen[pid := k];
      return;
    }
    newMax := maxId + 1;
    var s := seen[pid];
    assert s < k by { assert Deduping(Ids(before), ids, seen, top, maxId, k); }
    if panels[k].IsRow() && !panels[s].IsRow() {
      FixOld(before, panels, ids, seen, top, newMax, k);
      fixed, newIds := panels[s := panels[s].(id := newMax)], ids[s := newMax];
      holders := seen[pid := k];
    } else {
      FixNew(before, panels, ids, seen, top, newMax, k);
      fixed, newIds := panels[k := panels[k].(id := newMax)], ids[k := newMax];
    }
  }

  function Ids(panels: seq<Panel>): seq<int> {
    seq(|panels|, p requires 0 <= p < |panels| => panels[p].id)
  }

  /** The first `k` ids are distinct; `seen` names the one holder of each original id, and all others are fresh. */
  ghost predicate Deduping(before: seq<int>, ids: seq<int>, seen: map<int, nat>, top: int, maxId: int, k: nat) {
    && |ids| == |before| && k <= |ids|
    && (forall p :: 0 <= p < |ids| ==> before[p] <= top)
    && (forall p :: k <= p < |ids| ==> ids[p] == before[p])
    && (forall v :: v in seen ==> seen[v] < k && before[seen[v]] == v)
    && (forall p :: 0 <= p < k ==> before[p] in seen)
    && (forall p :: 0 <= p < k ==> if seen[before[p]] == p then ids[p] == before[p] else top < ids[p] <= maxId)
    && (forall p, q :: 0 <= p < q < k ==> ids[p] != ids[q])
  }

  /** Among the first `k` panels, the first row with an id holds it, or the first panel when no row has it. */
  ghost predicate RowsWin(before: seq<Panel>, seen: map<int, nat>, k: nat) {
    && k <= |before|
    && (forall p :: 0 <= p < k ==> before[p].id in seen)
    && (forall p :: 0 <= p < k && KeepsId(before, p, k) ==> seen[before[p].id] == p)
  }

  ghost predicate Fixing(before: seq<Panel>, panels: seq<Panel>, ids: seq<int>, seen: map<int, nat>,
                         top: int, maxId: int, k: nat) {
    && |panels| == |before| == |ids|
    && (forall p :: 0 <= p < |panels| ==> panels[p] == before[p].(id := ids[p]))
    && Deduping(Ids(before), ids, seen, top, maxId, k)
    && RowsWin(before, seen, k)
    && maxId == top + |Changed(Ids(before), ids)|
  }

  /** The places at which two lists differ. */
  ghost function Changed(before: seq<int>, after: seq<int>): set<nat> {
    set p: nat | p < |before| && p < |after| && before[p] != after[p]
  }

  lemma ChangedOne(before: seq<int>, after: seq<int>, p: nat, v: int)
    requires p < |before| == |after| && after[p] == before[p] != v
    ensures |Changed(before, after[p := v])| == |Changed(before, after)| + 1
  {
    assert Changed(before, after[p := v]) == Changed(before, after) + {p};
  }

  lemma FixNone(
    before: seq<Panel>, panels: seq<Panel>, ids: seq<int>, seen: map<int, nat>, top: int, maxId: int, k: nat)
    requires Fixing(before, panels, ids, seen, top, maxId, k) && k < |ids| && panels[k].id !in seen
    ensures Fixing(before, panels, ids, seen[panels[k].id := k], top, maxId, k + 1)
  {
    BumpNone(Ids(before), ids, seen, top, maxId, k);
    NewHolder(before, seen, k);
  }

  lemma KeepsShrinks(before: seq<Panel>, p: nat, k: nat)
    requires p < |before| && k < |before| && KeepsId(before, p, k + 1)
    ensures KeepsId(before, p, k)
  {}

  lemma LaterLoses(before: seq<Panel>, s: nat, k: nat)
    requires s < k < |before| && before[s].id == before[k].id && (before[k].IsRow() ==> before[s].IsRow())
    ensures !KeepsId(before, k, k + 1)
  {
    assert !FirstRowWithItsId(before, k);
  }

  lemma EarlierLoses(before: seq<Panel>, p: nat, k: nat)
    requires p < k < |before| && KeepsId(before, p, k + 1) && before[p].id == before[k].id && before[k].IsRow()
    ensures before[p].IsRow()
  {}

  lemma NewHolder(before: seq<Panel>, seen: map<int, nat>, k: nat)
    requires RowsWin(before, seen, k) && k < |before|
    requires before[k].id !in seen
             || (before[k].IsRow() && seen[before[k].id] < k && !before[seen[before[k].id]].IsRow())
    ensures RowsWin(before, seen[before[k].id := k], k + 1)
  {
    var next := seen[before[k].id := k];
    forall p | 0 <= p < k && KeepsId(before, p, k + 1) ensures next[before[p].id] == p {
      OtherHolderStays(before, seen, p, k);
    }
  }

  lemma OtherHolderStays(before: seq<Panel>, seen: map<int, nat>, p: nat, k: nat)
    requires RowsWin(before, seen, k) && p < k < |before| && KeepsId(before, p, k + 1)
    requires before[k].id !in seen
             || (before[k].IsRow() && seen[before[k].id] < k && !before[seen[before[k].id]].IsRow())
    ensures before[p].id in seen && seen[before[p].id] == p && before[p].id != before[k].id
  {
    HolderStays(before, seen, p, k);
    if before[p].id == before[k].id { EarlierLoses(before, p, k); }
  }

  lemma SameHolder(before: seq<Panel>, seen: map<int, nat>, k: nat)
    requires RowsWin(before, seen, k) && k < |before| && before[k].id in seen
    requires var s := seen[before[k].id];
             s < k && before[s].id == before[k].id && (before[k].IsRow() ==> before[s].IsRow())
    ensures RowsWin(before, seen, k + 1)
  {
    LaterLoses(before, seen[before[k].id], k);
    forall p | 0 <= p <= k && KeepsId(before, p, k + 1) ensures before[p].id in seen && seen[before[p].id] == p {
      HolderStays(before, seen, p, k);
    }
  }

  lemma HolderStays(before: seq<Panel>, seen: map<int, nat>, p: nat, k: nat)
    requires RowsWin(before, seen, k) && p < k < |before| && KeepsId(before, p, k + 1)
    ensures before[p].id in seen && seen[before[p].id] == p
  {
    KeepsShrinks(before, p, k);
  }

  lemma FixNew(
    before: seq<Panel>, panels: seq<Panel>, ids: seq<int>, seen: map<int, nat>, top: int, maxId: int, k: nat)
    requires Fixing(before, panels, ids, seen, top, maxId - 1, k) && k < |ids| && panels[k].id in seen && top < maxId
    requires panels[k].IsRow() ==> panels[seen[panels[k].id]].IsRow()
    ensures Fixing(before, panels[k := panels[k].(id := maxId)], ids[k := maxId], seen, top, maxId, k + 1)
  {
    BumpNew(Ids(before), ids, seen, top, maxId, k);
    ChangedOne(Ids(before), ids, k, maxId);
    SameHolder(before, seen, k);
  }

  lemma FixOld(
    before: seq<Panel>, panels: seq<Panel>, ids: seq<int>, seen: map<int, nat>, top: int, maxId: int, k: nat)
    requires Fixing(before, panels, ids, seen, top, maxId - 1, k) && k < |ids| && panels[k].id in seen && top < maxId
    requires panels[k].IsRow() && !panels[seen[panels[k].id]].IsRow()
    ensures var s := seen[panels[k].id];
            Fixing(before, panels[s := panels[s].(id := maxId)], ids[s := maxId], seen[panels[k].id := k],
                   top, maxId, k + 1)
  {
    BumpOld(Ids(before), ids, seen, top, maxId, k);
    ChangedOne(Ids(before), ids, seen[panels[k].id], maxId);
    NewHolder(before, seen, k);
  }

  lemma FixingStarts(before: seq<Panel>, top: int)
    requires forall p :: 0 <= p < |before| ==> before[p].id <= top
    ensures Fixing(before, before, Ids(before), map[], top, top, 0)
  {
    assert Changed(Ids(before), Ids(before)) == {};
  }

  lemma FixedIsDeduped(
    before: seq<Panel>, nested: seq<int>, panels: seq<Panel>, ids: seq<int>, seen: map<int, nat>, maxId: int)
    requires Fixing(before, panels, ids, seen, MaxId(before, nested), maxId, |before|)
    ensures DedupedFrom(before, nested, panels)
  {
    Fixed(before, panels, ids, seen, MaxId(before, nested), maxId);
  }

  lemma Fixed(before: seq<Panel>, panels: seq<Panel>, ids: seq<int>, seen: map<int, nat>, top: int, maxId: int)
    requires Fixing(before, panels, ids, seen, top, maxId, |ids|)
    ensures UniqueIds(panels)
    ensures forall p :: 0 <= p < |panels| && KeepsId(before, p, |before|) ==> panels[p].id == before[p].id
    ensures UniqueIds(before) ==> panels == before
    ensures forall p :: 0 <= p < |panels| ==>
              panels[p].id == before[p].id || 0 < panels[p].id - top <= |Changed(Ids(before), Ids(panels))|
  {
    assert Ids(panels) == ids;
    Deduped(Ids(before), ids, seen, top, maxId);
  }

  lemma BumpNone(before: seq<int>, ids: seq<int>, seen: map<int, nat>, top: int, maxId: int, k: nat)
    requires Deduping(before, ids, seen, top, maxId, k) && k < |ids| && ids[k] !in seen
    ensures Deduping(before, ids, seen[ids[k] := k], top, maxId, k + 1)
  {}

  lemma BumpNew(before: seq<int>, ids: seq<int>, seen: map<int, nat>, top: int, maxId: int, k: nat)
    requires Deduping(before, ids, seen, top, maxId - 1, k) && k < |ids| && ids[k] in seen && top < maxId
    ensures Deduping(before, ids[k := maxId], seen, top, maxId, k + 1)
  {}

  lemma BumpOld(before: seq<int>, ids: seq<int>, seen: map<int, nat>, top: int, maxId: int, k: nat)
    requires Deduping(before, ids, seen, top, maxId - 1, k) && k < |ids| && ids[k] in seen && top < maxId
    ensures Deduping(before, ids[seen[ids[k]] := maxId], seen[ids[k] := k], top, maxId, k + 1)
  {}

  lemma Deduped(before: seq<int>, ids: seq<int>, seen: map<int, nat>, top: int, maxId: int)
    requires Deduping(before, ids, seen, top, maxId, |ids|)
    ensures (forall p, q :: 0 <= p < q < |before| ==> before[p] != before[q]) ==> ids == before
    ensures forall p :: 0 <= p < |ids| ==> ids[p] == before[p] || top < ids[p] <= maxId
  {
    if forall p, q :: 0 <= p < q < |before| ==> before[p] != before[q] {
      forall p | 0 <= p < |ids| ensures ids[p] == before[p] {
        var s := seen[before[p]];
        assert before[s] == before[p];
      }
    }
  }

  lemma MissingRow(panels: seq<Panel>, rows: seq<nat>, rid: int)
    requires Indices(rows, |panels|) && Find(panels, rows, rid, 0) == -1
    requires forall r: nat :: r < |panels| && panels[r].IsRow() ==> r in rows
    ensures forall p :: 0 <= p < |panels| && panels[p].IsRow() ==> panels[p].id != rid
  {
    forall p | 0 <= p < |panels| && panels[p].IsRow() ensures panels[p].id != rid {
      assert p in rows;
    }
  }

  ghost predicate FirstRowWithItsId(panels: seq<Panel>, p: nat)
    requires p < |panels|
  {
    panels[p].IsRow() && forall q :: 0 <= q < p && panels[q].IsRow() ==> panels[q].id != panels[p].id
  }

  /** Of the first `k` panels, `p` is the one that keeps its id: the first row that has it, or the first panel
      when no row has it. */
  ghost predicate KeepsId(panels: seq<Panel>, p: nat, k: nat)
    requires p < |panels| && k <= |panels|
  {
    || FirstRowWithItsId(panels, p)
    || forall q :: 0 <= q < k && panels[q].id == panels[p].id ==> !panels[q].IsRow() && p <= q
  }

  /** The largest id of a top-level or nested panel; 0 when there is none. */
  function MaxId(panels: seq<Panel>, nested: seq<int>): (m: int)
    ensures forall p :: 0 <= p < |panels| ==> panels[p].id <= m
    ensures forall q :: 0 <= q < |nested| ==> nested[q] <= m
    ensures if panels == [] && nested == [] then m == 0 else m in Ids(panels) + nested
  {
    var ids := Ids(panels) + nested;
    assert forall p :: 0 <= p < |panels| ==> ids[p] == panels[p].id;
    assert forall q :: 0 <= q < |nested| ==> ids[|panels| + q] == nested[q];
    Max(ids)
  }

  function Max(ids: seq<int>): (m: int)
    ensures forall i :: 0 <= i < |ids| ==> ids[i] <= m
    ensures if ids == [] then m == 0 else m in ids
  {
    if ids == [] then 0
    else if |ids| == 1 then ids[0]
    else
      var m := Max(ids[1..]);
      assert forall i :: 1 <= i < |ids| ==> ids[i] == ids[1..][i - 1];
      if ids[0] > m then ids[0] else m
  }

  ghost predicate Untouched(before: seq<Panel>, after: seq<Panel>, s: Section) {
    && |before| == |after| && s.row < |before| && Indices(s.members, |before|)
    && after[s.row] == before[s.row]
    && forall i :: 0 <= i < |s.members| ==> after[s.members[i]] == before[s.members[i]]
  }

  lemma UntouchedIsValid(before: seq<Panel>, after: seq<Panel>, s: Section)
    requires ValidSection(before, s) && Untouched(before, after, s)
    ensures ValidSection(after, s)
  {}

  lemma PlacedFromUntouched(
    start: seq<Panel>, before: seq<Panel>, after: seq<Panel>, s: Section, top: int, bottom: int)
    requires Untouched(start, before, s) && |after| == |before|
    requires LaidOut(before, after, s, top, bottom)
    ensures LaidOut(start, after, s, top, bottom)
  {}

  /** Rows are never members, so moving one section leaves the panels of another alone. */
  ghost predicate Separate(s: Section, t: Section) {
    s.row !in PanelsOf(t) && forall i :: 0 <= i < |s.members| ==> s.members[i] !in PanelsOf(t)
  }

  lemma PlacedStays(
    start: seq<Panel>, before: seq<Panel>, after: seq<Panel>, s: Section, t: Section, top: int, bottom: int)
    requires |start| == |before| && ValidSection(start, s) && ValidSection(start, t)
    requires Apart(s, t) && OnlyMoved(before, after, PanelsOf(t))
    requires LaidOut(start, before, s, top, bottom)
    ensures LaidOut(start, after, s, top, bottom)
  {
    ApartIsSeparate(start, s, t);
    assert Positions(after, s.members) == Positions(before, s.members);
  }

  lemma UntouchedStays(start: seq<Panel>, before: seq<Panel>, after: seq<Panel>, s: Section, t: Section)
    requires Untouched(start, before, s) && ValidSection(start, s) && ValidSection(start, t)
    requires Apart(t, s) && OnlyMoved(before, after, PanelsOf(t))
    ensures Untouched(start, after, s)
  {
    forall m | m in s.members ensures m !in t.members {}
    ApartIsSeparate(start, s, t);
  }

  lemma ApartIsSeparate(panels: seq<Panel>, s: Section, t: Section)
    requires ValidSection(panels, s) && ValidSection(panels, t) && Apart(s, t)
    ensures Separate(s, t)
  {
    forall i | 0 <= i < |s.members| ensures s.members[i] !in PanelsOf(t) {
      assert s.members[i] in s.members;
    }
  }

  /** The first `k` members have been given the places of `places`; nothing else has changed. */
  ghost predicate Placing(before: seq<Panel>, after: seq<Panel>, members: seq<nat>, k: nat, places: seq<GridPos>)
    requires Indices(members, |before|)
  {
    && |before| == |after| && k == |places| <= |members|
    && (forall p :: 0 <= p < |before| ==> after[p] == before[p].(pos := after[p].pos))
    && (forall i :: 0 <= i < k ==> after[members[i]].pos == places[i])
    && (forall p :: 0 <= p < |before| && p !in members[..k] ==> after[p] == before[p])
  }

  lemma PlaceOne(before: seq<Panel>, after: seq<Panel>, members: seq<nat>, k: nat, places: seq<GridPos>, place: GridPos)
    requires Distinct(members) && Indices(members, |before|) && k < |members|
    requires Placing(before, after, members, k, places)
    ensures var m := members[k];
            Placing(before, after[m := after[m].(pos := place)], members, k + 1, places + [place])
  {
    assert members[..k + 1] == members[..k] + [members[k]];
  }

  lemma PlacedAll(before: seq<Panel>, after: seq<Panel>, members: seq<nat>, places: seq<GridPos>)
    requires Indices(members, |before|) && Placing(before, after, members, |members|, places)
    ensures OnlyMoved(before, after, set m | m in members)
    ensures Positions(after, members) == places
  {
    assert members[..|members|] == members;
  }

  /** The cursor (x, y) stands behind the last of the places; x is 0 only when the row is free. */
  ghost predicate Cursor(places: seq<GridPos>, startY: int, x: int, y: int) {
    var bottom := if x > 0 then y + ROW_HEIGHT else y;
    && Packed(places, startY, bottom)
    && if places == [] then x == 0
       else
         var last := places[|places| - 1];
         0 < last.w <= COLUMNS && 0 <= last.x
         && if last.w == COLUMNS then x == 0 && last.x == 0 else x == last.x + last.w && x <= COLUMNS
  }

  /** The place of the next panel, and the cursor behind it. */
  method Advance(x: int, y: int, w: int, ghost places: seq<GridPos>, ghost startY: int)
    returns (x': int, y': int, place: GridPos)
    requires Cursor(places, startY, x, y) && 0 < w <= COLUMNS
    ensures Cursor(places + [place], startY, x', y') && place.w == w
  {
    CursorStep(places, startY, x, y, w);
    x', y' := x, y;
    if w == COLUMNS {
      if x' > 0 {
        y' := y' + ROW_HEIGHT;
        x' := 0;
      }
      place := GridPos(0, y', COLUMNS, ROW_HEIGHT);
      y' := y' + ROW_HEIGHT;
    } else {
      if x' + w > COLUMNS {
        y' := y' + ROW_HEIGHT;
        x' := 0;
      }
      place := GridPos(x', y', w, ROW_HEIGHT);
      x' := x' + w;
    }
  }

  lemma CursorStep(places: seq<GridPos>, startY: int, x: int, y: int, w: int)
    requires Cursor(places, startY, x, y) && 0 < w <= COLUMNS
    ensures w == COLUMNS ==>
      var y' := if x > 0 then y + ROW_HEIGHT else y;
      Cursor(places + [GridPos(0, y', COLUMNS, ROW_HEIGHT)], startY, 0, y' + ROW_HEIGHT)
    ensures w < COLUMNS && x + w > COLUMNS ==>
      Cursor(places + [GridPos(0, y + ROW_HEIGHT, w, ROW_HEIGHT)], startY, w, y + ROW_HEIGHT)
    ensures w < COLUMNS && x + w <= COLUMNS ==>
      Cursor(places + [GridPos(x, y, w, ROW_HEIGHT)], startY, x + w, y)
  {}

  // ------------------------------------------------------------- no overlapping

  lemma {:induction false} BandsAscend(
    before: seq<Panel>, after: seq<Panel>, sections: seq<Section>, tops: seq<int>, j: nat, k: nat)
    requires |before| == |after| && ValidSections(before, sections) && |tops| == |sections| + 1 && j <= k <= |sections|
    requires forall i :: 0 <= i < |sections| ==> SectionPlaced(before, after, sections[i], tops[i], tops[i + 1])
    ensures tops[j] <= tops[k]
  {
    if j < k {
      BandsAscend(before, after, sections, tops, j, k - 1);
      assert SectionPlaced(before, after, sections[k - 1], tops[k - 1], tops[k]);
    }
  }

  lemma PanelInBand(before: seq<Panel>, after: seq<Panel>, s: Section, top: int, bottom: int, p: nat)
    requires |before| == |after| && ValidSection(before, s) && SectionPlaced(before, after, s, top, bottom)
    requires p in PanelsOf(s)
    ensures p < |after| && top <= after[p].pos.y && after[p].pos.y + after[p].pos.h <= bottom
  {
    if p != s.row { var i := PlaceOf(after, s, p); }
  }

  /** Panels of different sections never overlap. */
  lemma SectionsNeverOverlap(before: seq<Panel>, after: seq<Panel>, sections: seq<Section>, tops: seq<int>,
                             j: nat, k: nat, p: nat, q: nat)
    requires |before| == |after| && ValidSections(before, sections) && |tops| == |sections| + 1
    requires forall i :: 0 <= i < |sections| ==> SectionPlaced(before, after, sections[i], tops[i], tops[i + 1])
    requires j < |sections| && k < |sections| && j != k && p in PanelsOf(sections[j]) && q in PanelsOf(sections[k])
    ensures p < |after| && q < |after| && !Overlap(after[p].pos, after[q].pos)
  {
    PanelInBand(before, after, sections[j], tops[j], tops[j + 1], p);
    PanelInBand(before, after, sections[k], tops[k], tops[k + 1], q);
    if j < k {
      BandsAscend(before, after, sections, tops, j + 1, k);
    } else {
      BandsAscend(before, after, sections, tops, k + 1, j);
    }
  }

  /** Inside a re-flowed section no two panels overlap, and none overlaps the header. */
  lemma ReflowedNeverOverlaps(before: seq<Panel>, after: seq<Panel>, s: Section, top: int, bottom: int, p: nat, q: nat)
    requires |before| == |after| && ValidSection(before, s) && LaidOut(before, after, s, top, bottom)
    requires before[s.row].id !in {1, 14, 20, 39, 256, 46} && p in PanelsOf(s) && q in PanelsOf(s) && p != q
    ensures p < |after| && q < |after| && !Overlap(after[p].pos, after[q].pos)
  {
    var places := Positions(after, s.members);
    PackedFlows(places, top + 1, bottom);
    if p == s.row {
      var j := PlaceOf(after, s, q);
    } else if q == s.row {
      var i := PlaceOf(after, s, p);
    } else {
      var i := PlaceOf(after, s, p);
      var j := PlaceOf(after, s, q);
      FlowedApart(places, top + 1, bottom, i, j);
    }
  }

  lemma PlaceOf(panels: seq<Panel>, s: Section, p: nat) returns (i: nat)
    requires Indices(s.members, |panels|) && p in PanelsOf(s) && p != s.row
    ensures i < |s.members| && s.members[i] == p < |panels| && Positions(panels, s.members)[i] == panels[p].pos
  {
    i :| i < |s.members| && s.members[i] == p;
  }

  lemma FlowedApart(places: seq<GridPos>, top: int, bottom: int, i: nat, j: nat)
    requires Flowed(places, top, bottom) && i < |places| && j < |places| && i != j
    ensures !Overlap(places[i], places[j])
  {
    assert ReadsBefore(places[i], places[j]) || ReadsBefore(places[j], places[i]);
  }

  /** Inside a reference section two panels overlap exactly when they did before. */
  lemma ReferenceLayoutPreserved(
    before: seq<Panel>, after: seq<Panel>, s: Section, top: int, bottom: int, p: nat, q: nat)
    requires |before| == |after| && ValidSection(before, s) && LaidOut(before, after, s, top, bottom)
    requires before[s.row].id in {1, 14, 20, 39, 256, 46} && p in PanelsOf(s) && q in PanelsOf(s)
    ensures p < |after| && q < |after|
    ensures Overlap(after[p].pos, after[q].pos) <==> Overlap(before[p].pos, before[q].pos)
  {
    var dy := top - before[s.row].pos.y;
    forall r | r in PanelsOf(s) ensures r < |after| && after[r].pos == ShiftedBy(before[r].pos, dy) {
      if r != s.row { var i := PlaceOf(after, s, r); }
    }
  }
}
