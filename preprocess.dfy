/**
 * The cleaning pipeline applied to the result table of one race
 * (`clean` in preprocess.py): DNF/DNP places become missing, the DQ flag
 * gets a default, rows with unusable racer names are dropped, names and
 * ages are consolidated, placeholder team names are blanked and the
 * columns are projected onto a fixed list.
 *
 * A frame is a sequence of rows. A missing cell (pandas NaN) is `None`.
 * Each stage changes the set of columns, so each stage has its own row type.
 */
module Preprocess {
  import opened Wrappers
  import opened Frames
  import opened Text

  /** A row of a race's result table, once `clean` has dropped the columns it never uses. */
  datatype Row = Row(
    place: Option<int>,
    isDnf: Option<int>,
    isDnp: Option<int>,
    isDq: Option<int>,
    firstName: Option<string>,
    lastName: Option<string>,
    racerId: int,
    calculatedAge: Option<int>,
    reportedAge: Option<int>,
    teamName: Option<string>,
    raceTime: Option<string>,
    category: Option<int>,
    teamId: Option<int>,
    raceName: Option<string>,
    raceCategoryName: Option<string>)

  /** A row after `handle_missing`: the `IsDnf` and `IsDNP` columns are gone. */
  datatype MarkedRow = MarkedRow(
    place: Option<int>,
    isDq: Option<int>,
    firstName: Option<string>,
    lastName: Option<string>,
    racerId: int,
    calculatedAge: Option<int>,
    reportedAge: Option<int>,
    teamName: Option<string>,
    raceTime: Option<string>,
    category: Option<int>,
    teamId: Option<int>,
    raceName: Option<string>,
    raceCategoryName: Option<string>)

  /** A row once `Name` replaces `FirstName` and `LastName`. */
  datatype NamedRow = NamedRow(
    place: Option<int>,
    isDq: Option<int>,
    name: string,
    racerId: int,
    calculatedAge: Option<int>,
    reportedAge: Option<int>,
    teamName: Option<string>,
    raceTime: Option<string>,
    category: Option<int>,
    teamId: Option<int>,
    raceName: Option<string>,
    raceCategoryName: Option<string>)

  /** A row after `process_rider`: `Age` replaces the two age columns. */
  datatype RiderRow = RiderRow(
    place: Option<int>,
    isDq: Option<int>,
    name: string,
    racerId: int,
    age: Option<int>,
    teamName: Option<string>,
    raceTime: Option<string>,
    category: Option<int>,
    teamId: Option<int>,
    raceName: Option<string>,
    raceCategoryName: Option<string>)

  /**
   * A row of the cleaned table: exactly the columns Place, RaceTime, Name,
   * Age, Category, RacerID, TeamID, TeamName, RaceName, RaceCategoryName and
   * IsDQ, in that order, with IsDQ cast to a boolean.
   */
  datatype CleanRow = CleanRow(
    place: Option<int>,
    raceTime: Option<string>,
    name: string,
    age: Option<int>,
    category: Option<int>,
    racerId: int,
    teamId: Option<int>,
    teamName: Option<string>,
    raceName: Option<string>,
    raceCategoryName: Option<string>,
    isDq: bool)

  // ---------------------------------------------------------------- handle_missing

  /** The DNF write on one row: a row whose IsDnf flag is 1 loses its place. */
  function ClearIfDnf(r: Row): Row
  {
    if r.isDnf == Some(1) then r.(place := None) else r
  }

  /** The DNP write on one row: a row whose IsDNP flag is 1 loses its place. */
  function ClearIfDnp(r: Row): Row
  {
    if r.isDnp == Some(1) then r.(place := None) else r
  }

  /** The DQ write on one row: a missing IsDQ flag becomes 0. */
  function FillDq(r: Row): Row
  {
    r.(isDq := Some(r.isDq.GetOr(0)))
  }

  /** The three column writes of `handle_missing`, in order, on one row. */
  function MarkRow(r: Row): Row
  {
    FillDq(ClearIfDnp(ClearIfDnf(r)))
  }

  /** Drops the `IsDnf` and `IsDNP` columns from one row. */
  function DropFlags(r: Row): MarkedRow
  {
    MarkedRow(r.place, r.isDq, r.firstName, r.lastName, r.racerId, r.calculatedAge,
      r.reportedAge, r.teamName, r.raceTime, r.category, r.teamId, r.raceName,
      r.raceCategoryName)
  }

  /** The frame `handle_missing` returns for the input frame `rows`. */
  function MissingHandled(rows: seq<Row>): seq<MarkedRow>
  {
    Map(DropFlags, Map(MarkRow, rows))
  }

  /**
   * `handle_missing`: writes the DNF, DNP and DQ columns of the frame in
   * place, one whole-column assignment after another, then returns a copy
   * without the two flag columns.
   */
  method HandleMissing(a: array<Row>) returns (out: seq<MarkedRow>)
    modifies a
    ensures a[..] == Map(MarkRow, old(a[..]))
    ensures out == MissingHandled(old(a[..]))
  {
    ghost var before := a[..];
    UpdateEach(a, ClearIfDnf);
    UpdateEach(a, ClearIfDnp);
    UpdateEach(a, FillDq);
    assert a[..] == Map(MarkRow, before);
    out := Map(DropFlags, a[..]);
  }

  /**
   * `handle_missing` keeps every row in order; a place is missing afterwards
   * exactly when the row was a DNF or a DNP or had no place, and is otherwise
   * unchanged; a missing DQ flag becomes 0 and a present one is kept; every
   * other column is unchanged.
   */
  lemma MissingHandledSpec(rows: seq<Row>)
    ensures |MissingHandled(rows)| == |rows|
    ensures forall i :: 0 <= i < |rows| ==>
      var (r, m) := (rows[i], MissingHandled(rows)[i]);
      && (m.place.None? <==> r.isDnf == Some(1) || r.isDnp == Some(1) || r.place.None?)
      && (m.place.Some? ==> m.place == r.place)
      && (r.isDq.Some? ==> m.isDq == r.isDq)
      && (r.isDq.None? ==> m.isDq == Some(0))
      && m.firstName == r.firstName && m.lastName == r.lastName && m.racerId == r.racerId
      && m.calculatedAge == r.calculatedAge && m.reportedAge == r.reportedAge
      && m.teamName == r.teamName && m.raceTime == r.raceTime && m.category == r.category
      && m.teamId == r.teamId && m.raceName == r.raceName
      && m.raceCategoryName == r.raceCategoryName
  {
  }

  // ---------------------------------------------------------------- process_rider

  /** Racer IDs whose rows are known to lack usable names. */
  const BlacklistedRacers: set<int> := {3288, 61706, 832, 351}

  /** The name `process_rider` builds: `FirstName + ' ' + LastName`. */
  function FullName(first: string, last: string): string
  {
    first + " " + last
  }

  /** `str.contains(r'[\d]')`, for ASCII digits. */
  predicate ContainsDigit(s: string)
  {
    exists k | 0 <= k < |s| :: IsDigit(s[k])
  }

  /** The first mask: not a blacklisted racer and both names present. */
  predicate IsKnownRacer(r: MarkedRow)
  {
    r.racerId !in BlacklistedRacers && r.firstName.Some? && r.lastName.Some?
  }

  /** Replaces `FirstName` and `LastName` by `Name`. */
  function ToNamed(r: MarkedRow): NamedRow
    requires r.firstName.Some? && r.lastName.Some?
  {
    NamedRow(r.place, r.isDq, FullName(r.firstName.value, r.lastName.value), r.racerId,
      r.calculatedAge, r.reportedAge, r.teamName, r.raceTime, r.category, r.teamId,
      r.raceName, r.raceCategoryName)
  }

  /** The second mask: the name has no digit. */
  predicate HasNoDigit(r: NamedRow)
  {
    !ContainsDigit(r.name)
  }

  /** The third mask: the name is not the placeholder `Unknown Rider`. */
  predicate IsNotUnknown(r: NamedRow)
  {
    r.name != "Unknown Rider"
  }

  /**
   * `Age`: the larger of the two ages, a missing one counting as 0, and
   * missing when that larger value is 0.
   */
  function CombinedAge(calculated: Option<int>, reported: Option<int>): (age: Option<int>)
    ensures age.Some? ==> age == calculated || age == reported
    ensures age.Some? ==> age.value >= calculated.GetOr(0) && age.value >= reported.GetOr(0)
    ensures age.None? <==>
      calculated.GetOr(0) <= 0 && reported.GetOr(0) <= 0
      && (calculated.GetOr(0) == 0 || reported.GetOr(0) == 0)
  {
    var oldest := if calculated.GetOr(0) >= reported.GetOr(0) then calculated.GetOr(0) else reported.GetOr(0);
    if oldest == 0 then None else Some(oldest)
  }

  /** Replaces the two age columns by `Age`. */
  function WithAge(r: NamedRow): RiderRow
  {
    RiderRow(r.place, r.isDq, r.name, r.racerId, CombinedAge(r.calculatedAge, r.reportedAge),
      r.teamName, r.raceTime, r.category, r.teamId, r.raceName, r.raceCategoryName)
  }

  /** `process_rider`: three boolean-mask selections around the name and age columns. */
  function ProcessRider(rows: seq<MarkedRow>): seq<RiderRow>
  {
    var known := Filter(IsKnownRacer, rows);
    var named := Map(ToNamed, known);
    var sensible := Filter(IsNotUnknown, Filter(HasNoDigit, named));
    Map(WithAge, sensible)
  }

  /** Whether `process_rider` keeps a row: all three masks in one. */
  predicate KeepsRider(r: MarkedRow)
  {
    && IsKnownRacer(r)
    && !ContainsDigit(FullName(r.firstName.value, r.lastName.value))
    && FullName(r.firstName.value, r.lastName.value) != "Unknown Rider"
  }

  /** What `process_rider` makes of a row it keeps. */
  function RiderOf(r: MarkedRow): RiderRow
    requires r.firstName.Some? && r.lastName.Some?
  {
    WithAge(ToNamed(r))
  }

  /** The three selections of `process_rider` amount to one selection by `KeepsRider`. */
  lemma {:induction false} ProcessRiderIsOneFilter(rows: seq<MarkedRow>)
    ensures forall x :: x in Filter(KeepsRider, rows) ==> x.firstName.Some? && x.lastName.Some?
    ensures ProcessRider(rows) == Map(RiderOf, Filter(KeepsRider, rows))
  {
    if rows != [] {
      var x, t := rows[0], rows[1..];
      assert rows == [x] + t;
      ProcessRiderIsOneFilter(t);
      FilterCons(IsKnownRacer, x, t);
      FilterCons(KeepsRider, x, t);
      var known := Filter(IsKnownRacer, t);
      if IsKnownRacer(x) {
        var n := ToNamed(x);
        var named := Map(ToNamed, known);
        MapCons(ToNamed, x, known);
        FilterCons(HasNoDigit, n, named);
        var noDigit := Filter(HasNoDigit, named);
        if HasNoDigit(n) {
          FilterCons(IsNotUnknown, n, noDigit);
          if IsNotUnknown(n) {
            MapCons(WithAge, n, Filter(IsNotUnknown, noDigit));
            MapCons(RiderOf, x, Filter(KeepsRider, t));
          }
        }
      }
    }
  }

  /**
   * `out` is how `process_rider` may leave the row `r`: the racer is not
   * blacklisted, both names are present, `Name == FirstName + " " + LastName`
   * has no digit and is not `Unknown Rider`, `Age` is the consolidated age,
   * and every other column is carried over.
   */
  ghost predicate IsRiderOf(r: MarkedRow, out: RiderRow)
  {
    && r.racerId !in BlacklistedRacers
    && r.firstName.Some? && r.lastName.Some?
    && out.name == r.firstName.value + " " + r.lastName.value
    && !ContainsDigit(out.name) && out.name != "Unknown Rider"
    && out.age == CombinedAge(r.calculatedAge, r.reportedAge)
    && out.place == r.place && out.isDq == r.isDq && out.racerId == r.racerId
    && out.teamName == r.teamName && out.raceTime == r.raceTime
    && out.category == r.category && out.teamId == r.teamId
    && out.raceName == r.raceName && out.raceCategoryName == r.raceCategoryName
  }

  /**
   * `process_rider` keeps, in their original order, exactly the rows
   * `KeepsRider` accepts, and each output row is `IsRiderOf` its input row.
   */
  lemma ProcessRiderSpec(rows: seq<MarkedRow>) returns (idx: seq<int>)
    ensures |idx| == |ProcessRider(rows)|
    ensures forall k, l :: 0 <= k < l < |idx| ==> idx[k] < idx[l]
    ensures forall j :: 0 <= j < |rows| ==> (KeepsRider(rows[j]) <==> j in idx)
    ensures forall k :: 0 <= k < |idx| ==>
      0 <= idx[k] < |rows| && IsRiderOf(rows[idx[k]], ProcessRider(rows)[k])
  {
    ProcessRiderIsOneFilter(rows);
    FilterKeepsOrder(KeepsRider, rows);
    idx := KeptIndices(KeepsRider, rows);
    forall k | 0 <= k < |idx|
      ensures 0 <= idx[k] < |rows| && IsRiderOf(rows[idx[k]], ProcessRider(rows)[k])
    {
      MapFilterAt(RiderOf, KeepsRider, rows, k);
      assert KeepsRider(rows[idx[k]]);
    }
  }

  // ---------------------------------------------------------------- process_team

  /** Team names that stand for "no team", compared after lower-casing. */
  const PlaceholderTeamNames: set<string> := {"", "unattached", "0"}

  /** The team-name mask on one cell: the lower-cased name is a placeholder; a missing name never is. */
  predicate IsPlaceholderTeam(team: Option<string>)
  {
    team.Some? && Lower(team.value) in PlaceholderTeamNames
  }

  /** The team-name write on one row: a placeholder name becomes missing. */
  function BlankPlaceholderTeam(r: RiderRow): RiderRow
  {
    if IsPlaceholderTeam(r.teamName) then r.(teamName := None) else r
  }

  /** The frame `process_team` leaves for the input frame `rows`. */
  function TeamsProcessed(rows: seq<RiderRow>): seq<RiderRow>
  {
    Map(BlankPlaceholderTeam, rows)
  }

  /** `process_team`: blanks the placeholder team names of the frame in place. */
  method ProcessTeam(a: array<RiderRow>)
    modifies a
    ensures a[..] == TeamsProcessed(old(a[..]))
  {
    UpdateEach(a, BlankPlaceholderTeam);
  }

  /**
   * Of the placeholders only `unattached` has letters: a name is a
   * placeholder exactly when it is empty, is `0`, or spells `unattached` in
   * any mix of cases.
   */
  lemma PlaceholderSpellings(name: string)
    ensures IsPlaceholderTeam(Some(name)) <==>
      name == "" || name == "0" || Lower(name) == "unattached"
  {
    if Lower(name) == "0" {
      assert LowerChar(name[0]) == '0';
      assert name == "0";
    }
    if name == "0" {
      assert Lower(name) == "0";
    }
  }

  /**
   * `process_team` keeps every row in order; a team name is missing
   * afterwards exactly when it was missing or a placeholder, other names
   * and all other columns are unchanged.
   */
  lemma TeamsProcessedSpec(rows: seq<RiderRow>)
    ensures |TeamsProcessed(rows)| == |rows|
    ensures forall i :: 0 <= i < |rows| ==>
      var (r, out) := (rows[i], TeamsProcessed(rows)[i]);
      && (out.teamName.None? <==> r.teamName.None? || IsPlaceholderTeam(r.teamName))
      && (out.teamName.Some? ==> out.teamName == r.teamName)
      && out.(teamName := r.teamName) == r
  {
  }

  /** Running `process_team` a second time changes nothing. */
  lemma TeamsProcessedIdempotent(rows: seq<RiderRow>)
    ensures TeamsProcessed(TeamsProcessed(rows)) == TeamsProcessed(rows)
  {
  }

  // ---------------------------------------------------------------- process_time

  /** `process_time` leaves the frame as it is. */
  function ProcessTime(rows: seq<RiderRow>): (r: seq<RiderRow>)
    ensures r == rows
  {
    rows
  }

  // ---------------------------------------------------------------- sort_columns

  /** pandas `astype(bool)` of the DQ flag: missing reads as true, 0 as false. */
  function DqFlag(isDq: Option<int>): bool
  {
    isDq.None? || isDq.value != 0
  }

  /** Projects one row onto the output columns, in their order. */
  function ToColumns(r: RiderRow): CleanRow
  {
    CleanRow(r.place, r.raceTime, r.name, r.age, r.category, r.racerId, r.teamId,
      r.teamName, r.raceName, r.raceCategoryName, DqFlag(r.isDq))
  }

  /** `sort_columns`: every row projected onto the output columns. */
  function SortColumns(rows: seq<RiderRow>): seq<CleanRow>
  {
    Map(ToColumns, rows)
  }

  /**
   * `sort_columns` keeps every row in order and carries each column's value
   * over; the DQ flag becomes true exactly when it is missing or non-zero.
   */
  lemma SortColumnsSpec(rows: seq<RiderRow>)
    ensures |SortColumns(rows)| == |rows|
    ensures forall i :: 0 <= i < |rows| ==>
      var (r, c) := (rows[i], SortColumns(rows)[i]);
      && c.place == r.place && c.raceTime == r.raceTime && c.name == r.name && c.age == r.age
      && c.category == r.category && c.racerId == r.racerId && c.teamId == r.teamId
      && c.teamName == r.teamName && c.raceName == r.raceName
      && c.raceCategoryName == r.raceCategoryName
      && (c.isDq <==> r.isDq != Some(0))
  {
  }

  // ---------------------------------------------------------------- clean

  /** The table `clean` returns for the rows `rows`. */
  function CleanRows(rows: seq<Row>): seq<CleanRow>
  {
    SortColumns(ProcessTime(TeamsProcessed(ProcessRider(MissingHandled(rows)))))
  }

  /** `clean`: the stages run one after the other on a frame built from `rows`. */
  method Clean(rows: seq<Row>) returns (out: seq<CleanRow>)
    ensures out == CleanRows(rows)
  {
    var frame := new Row[|rows|](i requires 0 <= i < |rows| => rows[i]);
    assert frame[..] == rows;
    var marked := HandleMissing(frame);
    var riders := ProcessRider(marked);
    var teams := new RiderRow[|riders|](i requires 0 <= i < |riders| => riders[i]);
    assert teams[..] == riders;
    ProcessTeam(teams);
    var timed := ProcessTime(teams[..]);
    out := SortColumns(timed);
  }

  /** Whether `clean` keeps a raw row: the mask of `process_rider` after `handle_missing`. */
  predicate Kept(r: Row)
  {
    KeepsRider(DropFlags(MarkRow(r)))
  }

  /**
   * `handle_missing` touches none of the columns the mask reads, so a raw row
   * is kept exactly when its racer is not blacklisted, both names are present,
   * and the full name has no digit and is not `Unknown Rider`.
   */
  lemma KeptSpec(r: Row)
    ensures Kept(r) <==>
      && r.racerId !in BlacklistedRacers
      && r.firstName.Some? && r.lastName.Some?
      && !ContainsDigit(FullName(r.firstName.value, r.lastName.value))
      && FullName(r.firstName.value, r.lastName.value) != "Unknown Rider"
  {
  }

  /** What `clean` makes of a raw row it keeps. */
  function Cleaned(r: Row): CleanRow
    requires r.firstName.Some? && r.lastName.Some?
  {
    ToColumns(BlankPlaceholderTeam(RiderOf(DropFlags(MarkRow(r)))))
  }

  /** The whole pipeline is one selection by `Kept` followed by a per-row map. */
  lemma {:induction false} CleanIsFilterThenMap(rows: seq<Row>)
    ensures forall x :: x in Filter(Kept, rows) ==> x.firstName.Some? && x.lastName.Some?
    ensures CleanRows(rows) == Map(Cleaned, Filter(Kept, rows))
  {
    var marked := MissingHandled(rows);
    ProcessRiderIsOneFilter(marked);
    KeptCommutes(rows);
  }

  /** Selecting after `handle_missing` is `handle_missing` after selecting. */
  lemma {:induction false} KeptCommutes(rows: seq<Row>)
    ensures forall x :: x in Filter(Kept, rows) ==> x.firstName.Some? && x.lastName.Some?
    ensures SortColumns(TeamsProcessed(Map(RiderOf, Filter(KeepsRider, MissingHandled(rows)))))
      == Map(Cleaned, Filter(Kept, rows))
  {
    if rows != [] {
      var x, t := rows[0], rows[1..];
      assert rows == [x] + t;
      KeptCommutes(t);
      var m := DropFlags(MarkRow(x));
      assert MissingHandled(rows) == [m] + MissingHandled(t);
      FilterCons(KeepsRider, m, MissingHandled(t));
      FilterCons(Kept, x, t);
      if Kept(x) {
        var kept := Filter(KeepsRider, MissingHandled(t));
        MapCons(RiderOf, m, kept);
        MapCons(BlankPlaceholderTeam, RiderOf(m), Map(RiderOf, kept));
        MapCons(ToColumns, BlankPlaceholderTeam(RiderOf(m)), TeamsProcessed(Map(RiderOf, kept)));
        MapCons(Cleaned, x, Filter(Kept, t));
      }
    }
  }

  /**
   * `clean` keeps, in their original order, exactly the rows `Kept`
   * accepts, and turns each into `Cleaned` of it.
   */
  lemma CleanKeepsOrder(rows: seq<Row>) returns (idx: seq<int>)
    ensures |idx| == |CleanRows(rows)|
    ensures forall k, l :: 0 <= k < l < |idx| ==> idx[k] < idx[l]
    ensures forall j :: 0 <= j < |rows| ==> (Kept(rows[j]) <==> j in idx)
    ensures forall k :: 0 <= k < |idx| ==>
      0 <= idx[k] < |rows| && Kept(rows[idx[k]]) && CleanRows(rows)[k] == Cleaned(rows[idx[k]])
  {
    CleanIsFilterThenMap(rows);
    FilterKeepsOrder(Kept, rows);
    idx := KeptIndices(Kept, rows);
    forall k | 0 <= k < |idx|
      ensures 0 <= idx[k] < |rows| && CleanRows(rows)[k] == Cleaned(rows[idx[k]])
    {
      MapFilterAt(Cleaned, Kept, rows, k);
    }
  }

  /**
   * One kept row through the whole pipeline: its place is missing exactly
   * when it was a DNF, a DNP or unplaced; it is disqualified exactly when
   * its DQ flag was present and non-zero; its name joins first and last
   * name; its age is the consolidated age; its team name is missing exactly
   * when it was missing or a placeholder; everything else is carried over.
   */
  lemma CleanedSpec(r: Row)
    requires Kept(r)
    ensures var c := Cleaned(r);
      && (c.place.None? <==> r.isDnf == Some(1) || r.isDnp == Some(1) || r.place.None?)
      && (c.place.Some? ==> c.place == r.place)
      && (c.isDq <==> r.isDq.Some? && r.isDq.value != 0)
      && c.name == r.firstName.value + " " + r.lastName.value
      && c.age == CombinedAge(r.calculatedAge, r.reportedAge)
      && (c.teamName.None? <==> r.teamName.None? || IsPlaceholderTeam(r.teamName))
      && (c.teamName.Some? ==> c.teamName == r.teamName)
      && c.racerId == r.racerId && c.raceTime == r.raceTime && c.category == r.category
      && c.teamId == r.teamId && c.raceName == r.raceName
      && c.raceCategoryName == r.raceCategoryName
  {
  }
}
