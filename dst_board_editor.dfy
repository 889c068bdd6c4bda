/**
 * The full-screen DST board editor: the class rows of the main table and
 * the two tiers-temps tables, each edited in place by add, update and
 * delete handlers, plus the header date.
 */
module DstBoardEditor {
  import opened Wrappers
  import opened Collections
  import opened Dates
  import DstLiveBoard

  const HEADER_PLACEHOLDER := "DST SAMEDI __ ________ 20__"
  const DEFAULT_DUREE1 := "9H00-10H30"
  const DEFAULT_DUREE2 := "10H45-12H15"

  /** One class row of the main table. */
  datatype Row = Row(id: int, classe: string, duree1: string, duree2: string, nbEleves: int,
                     profs: seq<string>, salle: string)

  /** One student of a tiers-temps table; `ordi` marks a student allowed a computer. */
  datatype TiersRow = TiersRow(id: int, eleve: string, ordi: bool)

  /** The field an `updateRow` call names, with its new value. */
  datatype RowEdit =
    | SetClasse(classe: string)
    | SetDuree1(duree1: string)
    | SetDuree2(duree2: string)
    | SetNbEleves(nbEleves: int)
    | SetSalle(salle: string)

  /** The field an `updateTiersTemps` call names, with its new value. */
  datatype TiersEdit = SetEleve(eleve: string) | SetOrdi(ordi: bool)

  function RowId(r: Row): int { r.id }

  function TiersId(t: TiersRow): int { t.id }

  /** No two entries of a table share an id. */
  ghost predicate UniqueIds<T>(s: seq<T>, key: T -> int)
  {
    forall i, j :: 0 <= i < j < |s| ==> key(s[i]) != key(s[j])
  }

  // ---------------------------------------------------------------------
  // Header

  /** `formatHeaderDate()`: the board's title, or the blank form when no date is picked. */
  function FormatHeaderDate(date: Option<int>): (r: string)
    ensures date.None? ==> r == HEADER_PLACEHOLDER
    ensures date.Some? ==> |r| > 4 && r[..4] == "DST " && r != HEADER_PLACEHOLDER
  {
    if date.None? then HEADER_PLACEHOLDER
    else
      var c := CivilOf(date.value);
      var day := DstLiveBoard.DAY_NAMES[Weekday(date.value)];
      var digits := NatToString(c.day);
      var tail := " " + DstLiveBoard.MONTH_NAMES[c.month - 1] + " " + IntToString(c.year);
      NotPlaceholder(day, digits, tail);
      "DST " + day + " " + digits + tail
  }

  /** A filled-in title never reads as the blank form. */
  lemma NotPlaceholder(day: string, digits: string, tail: string)
    requires day in DstLiveBoard.DAY_NAMES
    requires |digits| >= 1 && '0' <= digits[0] <= '9'
    ensures ("DST " + day + " " + digits + tail)[..4] == "DST "
    ensures "DST " + day + " " + digits + tail != HEADER_PLACEHOLDER
  {
    var r := "DST " + day + " " + digits + tail;
    assert r[..4] == "DST ";
    assert HEADER_PLACEHOLDER[4] == 'S' && HEADER_PLACEHOLDER[11] == '_';
    if day == "SAMEDI" {
      assert r[11] == digits[0];
    } else {
      assert r[4] == day[0];
    }
  }

  lemma Regroup(a: string, b: string, c: string)
    ensures a + (b + c) == a + b + c
  {
  }

  /** The editor's title and the live board's title agree on every picked date. */
  lemma HeaderMatchesLiveBoard(date: Option<int>)
    requires date.Some?
    ensures FormatHeaderDate(date) == DstLiveBoard.FormatDate(date)
  {
    var c := CivilOf(date.value);
    var day, digits := DstLiveBoard.DAY_NAMES[Weekday(date.value)], NatToString(c.day);
    var m, y := DstLiveBoard.MONTH_NAMES[c.month - 1], IntToString(c.year);
    var head, tail := "DST " + day + " ", " " + m + " " + y;
    assert FormatHeaderDate(date) == head + digits + tail;
    assert DstLiveBoard.FormatDate(date) == head + (digits + " " + m + " " + y);
    Regroup(digits, " " + m + " ", y);
    Regroup(digits, " " + m, " ");
    Regroup(digits, " ", m);
    Regroup(head, digits, tail);
  }

  // ---------------------------------------------------------------------
  // Ids

  /** `Math.max(...ids, 0)`. */
  function MaxId(ids: seq<int>): (m: int)
    ensures m >= 0
    ensures forall i :: 0 <= i < |ids| ==> ids[i] <= m
    ensures m == 0 || m in ids
  {
    if |ids| == 0 then 0
    else
      var m := MaxId(ids[..|ids| - 1]);
      assert forall i :: 0 <= i < |ids| - 1 ==> ids[i] == ids[..|ids| - 1][i];
      if ids[|ids| - 1] > m then ids[|ids| - 1] else m
  }

  /** The id a new entry of the table receives. */
  function NextId<T>(s: seq<T>, key: T -> int): int
  {
    MaxId(Map(s, key)) + 1
  }

  /** The new id is positive and greater than every id already in the table. */
  lemma NextIdFresh<T>(s: seq<T>, key: T -> int)
    ensures NextId(s, key) >= 1
    ensures forall i :: 0 <= i < |s| ==> key(s[i]) < NextId(s, key)
  {
    var ids := Map(s, key);
    assert forall i :: 0 <= i < |s| ==> ids[i] == key(s[i]);
  }

  /** Appending an entry with the next id keeps the ids unique. */
  lemma AppendFreshKeepsUnique<T>(s: seq<T>, key: T -> int, x: T)
    requires UniqueIds(s, key)
    requires key(x) == NextId(s, key)
    ensures UniqueIds(s + [x], key)
  {
    NextIdFresh(s, key);
    var t := s + [x];
    forall i, j | 0 <= i < j < |t|
      ensures key(t[i]) != key(t[j])
    {
      assert t[i] == s[i];
      if j < |s| {
        assert t[j] == s[j];
      }
    }
  }

  // ---------------------------------------------------------------------
  // Deleting

  /** `s.filter(r => r.id !== id)`. */
  function Without<T>(s: seq<T>, key: T -> int, id: int): (r: seq<T>)
    ensures forall i :: 0 <= i < |r| ==> r[i] in s && key(r[i]) != id
    ensures forall i :: 0 <= i < |s| && key(s[i]) != id ==> s[i] in r
    ensures UniqueIds(s, key) ==> UniqueIds(r, key)
  {
    var p := (x: T) => key(x) != id;
    assert UniqueIds(s, key) ==> UniqueIds(Filter(s, p), key) by {
      if UniqueIds(s, key) {
        FilterKeepsUnique(s, key, p);
      }
    }
    Filter(s, p)
  }

  /** Deleting never makes two ids collide. */
  lemma {:induction false} FilterKeepsUnique<T>(s: seq<T>, key: T -> int, p: T -> bool)
    requires UniqueIds(s, key)
    ensures UniqueIds(Filter(s, p), key)
    decreases |s|
  {
    if |s| > 0 {
      var init, last := s[..|s| - 1], s[|s| - 1];
      assert UniqueIds(init, key) by {
        forall i, j | 0 <= i < j < |init|
          ensures key(init[i]) != key(init[j])
        {
          assert init[i] == s[i] && init[j] == s[j];
        }
      }
      FilterKeepsUnique(init, key, p);
      var rest := Filter(init, p);
      if p(last) {
        var t := rest + [last];
        forall i, j | 0 <= i < j < |t|
          ensures key(t[i]) != key(t[j])
        {
          assert t[i] == rest[i];
          if j < |rest| {
            assert t[j] == rest[j];
          } else {
            assert rest[i] in init;
            var k :| 0 <= k < |init| && init[k] == rest[i];
            assert s[k] == rest[i];
          }
        }
      }
    }
  }

  // ---------------------------------------------------------------------
  // Updating

  /** `b` is `a` with the field `e` names set to `e`'s value and every other field as it was. */
  predicate EditedAs(a: Row, b: Row, e: RowEdit)
  {
    && b.id == a.id && b.profs == a.profs
    && b.classe == (if e.SetClasse? then e.classe else a.classe)
    && b.duree1 == (if e.SetDuree1? then e.duree1 else a.duree1)
    && b.duree2 == (if e.SetDuree2? then e.duree2 else a.duree2)
    && b.nbEleves == (if e.SetNbEleves? then e.nbEleves else a.nbEleves)
    && b.salle == (if e.SetSalle? then e.salle else a.salle)
  }

  /** `{ ...r, [field]: value }`. */
  function EditRow(r: Row, e: RowEdit): (r': Row)
    ensures EditedAs(r, r', e)
  {
    match e
    case SetClasse(v) => r.(classe := v)
    case SetDuree1(v) => r.(duree1 := v)
    case SetDuree2(v) => r.(duree2 := v)
    case SetNbEleves(v) => r.(nbEleves := v)
    case SetSalle(v) => r.(salle := v)
  }

  /** `rows.map(r => r.id === id ? { ...r, [field]: value } : r)`. */
  function UpdatedRows(rows: seq<Row>, id: int, e: RowEdit): (r: seq<Row>)
    ensures |r| == |rows|
    ensures forall i :: 0 <= i < |rows| && rows[i].id == id ==> EditedAs(rows[i], r[i], e)
    ensures forall i :: 0 <= i < |rows| && rows[i].id != id ==> r[i] == rows[i]
    ensures Map(r, RowId) == Map(rows, RowId)
  {
    Map(rows, (x: Row) => if x.id == id then EditRow(x, e) else x)
  }

  /** `newProfs[profIndex] = value` on a copy: an index past the end extends the list, the gap left empty. */
  function SetProf(profs: seq<string>, k: nat, v: string): (r: seq<string>)
    ensures |r| == if k < |profs| then |profs| else k + 1
    ensures r[k] == v
    ensures forall j :: 0 <= j < |profs| && j != k ==> r[j] == profs[j]
    ensures forall j :: |profs| <= j < k ==> r[j] == ""
  {
    if k < |profs| then profs[k := v] else profs + seq(k - |profs|, _ => "") + [v]
  }

  /** `updateProf(rowId, profIndex, value)` on the rows. */
  function UpdatedProfs(rows: seq<Row>, id: int, k: nat, v: string): (r: seq<Row>)
    ensures |r| == |rows|
    ensures forall i :: 0 <= i < |rows| && rows[i].id == id ==>
      r[i] == rows[i].(profs := r[i].profs) && r[i].profs == SetProf(rows[i].profs, k, v)
    ensures forall i :: 0 <= i < |rows| && rows[i].id != id ==> r[i] == rows[i]
    ensures Map(r, RowId) == Map(rows, RowId)
  {
    Map(rows, (x: Row) => if x.id == id then x.(profs := SetProf(x.profs, k, v)) else x)
  }

  /** `b` is `a` with the field `e` names set to `e`'s value. */
  predicate TiersEditedAs(a: TiersRow, b: TiersRow, e: TiersEdit)
  {
    && b.id == a.id
    && b.eleve == (if e.SetEleve? then e.eleve else a.eleve)
    && b.ordi == (if e.SetOrdi? then e.ordi else a.ordi)
  }

  /** `prev.map(r => r.id === id ? { ...r, [field]: value } : r)` on a tiers-temps table. */
  function UpdatedTiers(s: seq<TiersRow>, id: int, e: TiersEdit): (r: seq<TiersRow>)
    ensures |r| == |s|
    ensures forall i :: 0 <= i < |s| && s[i].id == id ==> TiersEditedAs(s[i], r[i], e)
    ensures forall i :: 0 <= i < |s| && s[i].id != id ==> r[i] == s[i]
    ensures Map(r, TiersId) == Map(s, TiersId)
  {
    Map(s, (x: TiersRow) =>
      if x.id != id then x
      else match e
        case SetEleve(v) => x.(eleve := v)
        case SetOrdi(v) => x.(ordi := v))
  }

  /** A table whose ids are those of a table with unique ids has unique ids. */
  lemma SameIdsKeepUnique<T>(s: seq<T>, r: seq<T>, key: T -> int)
    requires UniqueIds(s, key)
    requires Map(r, key) == Map(s, key)
    ensures UniqueIds(r, key)
  {
    forall i, j | 0 <= i < j < |r|
      ensures key(r[i]) != key(r[j])
    {
      assert Map(r, key)[i] == Map(s, key)[i];
      assert Map(r, key)[j] == Map(s, key)[j];
    }
  }

  // ---------------------------------------------------------------------
  // Fresh entries

  function BlankRow(id: int): (r: Row)
    ensures r.id == id && r.profs == ["", ""] && r.nbEleves == 0
  {
    Row(id, "", DEFAULT_DUREE1, DEFAULT_DUREE2, 0, ["", ""], "")
  }

  function BlankTiers(id: int): (t: TiersRow)
    ensures t.id == id && !t.ordi
  {
    TiersRow(id, "", false)
  }

  // ---------------------------------------------------------------------
  // The editor's state

  class BoardEditor {
    var dstDate: Option<int>
    var rows: seq<Row>
    var tiersTempsRows: seq<TiersRow>
    var tiersTempsRows2: seq<TiersRow>

    ghost predicate Valid()
      reads this
    {
      && UniqueIds(rows, RowId)
      && UniqueIds(tiersTempsRows, TiersId)
      && UniqueIds(tiersTempsRows2, TiersId)
    }

    /** The editor opens with no date, four class rows and the two tiers-temps lists. */
    constructor()
      ensures Valid()
      ensures dstDate.None?
      ensures Map(rows, RowId) == [1, 2, 3, 4]
      ensures Map(tiersTempsRows, TiersId) == [1, 2, 3, 4]
      ensures Map(tiersTempsRows2, TiersId) == [1, 2, 3, 4, 5]
    {
      dstDate := None;
      rows := [
        Row(1, "2A", DEFAULT_DUREE1, DEFAULT_DUREE2, 32, ["PC : Mme LEVY-CHEVASSON", "SVT : M. PETIT"], "41"),
        Row(2, "2B", DEFAULT_DUREE1, DEFAULT_DUREE2, 32, ["PC : Mme PICARD", "SVT : Mme JOUBERT"], "42"),
        Row(3, "2C", DEFAULT_DUREE1, "", 31, ["PC : MME LEVY-CHEVASSON", "SVT : Mme FAÏD"], "43"),
        Row(4, "2D", DEFAULT_DUREE1, DEFAULT_DUREE2, 32, ["PC : Mme FAÏD", "SVT : M. PETIT"], "45")];
      tiersTempsRows := [
        TiersRow(1, "2C BERTRAND Stanislas", true),
        TiersRow(2, "2C GARCIA VERDUGO MESEGUER David", true),
        TiersRow(3, "2C SCHMITT Marine", false),
        TiersRow(4, "2C WISEMAN DANN Oscar", true)];
      tiersTempsRows2 := [
        TiersRow(1, "2A (SP) PASTOUR Raphaël", false),
        TiersRow(2, "2B MOREL Anouchka", false),
        TiersRow(3, "2B SUMAR Léonard", false),
        TiersRow(4, "2D BOUHAMIDI Jassem", true),
        TiersRow(5, "2D DE LA ROCHEBROCHARD Rose", false)];
    }

    /** `updateRow(id, field, value)`. */
    method UpdateRow(id: int, e: RowEdit)
      requires Valid()
      modifies this
      ensures Valid()
      ensures rows == UpdatedRows(old(rows), id, e)
      ensures unchanged(this`dstDate, this`tiersTempsRows, this`tiersTempsRows2)
    {
      SameIdsKeepUnique(rows, UpdatedRows(rows, id, e), RowId);
      rows := UpdatedRows(rows, id, e);
    }

    /** `updateProf(rowId, profIndex, value)`. */
    method UpdateProf(id: int, k: nat, v: string)
      requires Valid()
      modifies this
      ensures Valid()
      ensures rows == UpdatedProfs(old(rows), id, k, v)
      ensures unchanged(this`dstDate, this`tiersTempsRows, this`tiersTempsRows2)
    {
      SameIdsKeepUnique(rows, UpdatedProfs(rows, id, k, v), RowId);
      rows := UpdatedProfs(rows, id, k, v);
    }

    /** `addRow()`: one blank row with a fresh id goes at the end. */
    method AddRow()
      requires Valid()
      modifies this
      ensures Valid()
      ensures rows == old(rows) + [BlankRow(NextId(old(rows), RowId))]
      ensures unchanged(this`dstDate, this`tiersTempsRows, this`tiersTempsRows2)
    {
      AppendFreshKeepsUnique(rows, RowId, BlankRow(NextId(rows, RowId)));
      rows := rows + [BlankRow(NextId(rows, RowId))];
    }

    /** `deleteRow(id)`. */
    method DeleteRow(id: int)
      requires Valid()
      modifies this
      ensures Valid()
      ensures rows == Without(old(rows), RowId, id)
      ensures unchanged(this`dstDate, this`tiersTempsRows, this`tiersTempsRows2)
    {
      rows := Without(rows, RowId, id);
    }

    /** `addTiersTemps(group)`: group 1 is the first table, any other group the second. */
    method AddTiersTemps(group: int)
      requires Valid()
      modifies this
      ensures Valid()
      ensures group == 1 ==> tiersTempsRows == old(tiersTempsRows) + [BlankTiers(NextId(old(tiersTempsRows), TiersId))]
      ensures group == 1 ==> tiersTempsRows2 == old(tiersTempsRows2)
      ensures group != 1 ==> tiersTempsRows2 == old(tiersTempsRows2) + [BlankTiers(NextId(old(tiersTempsRows2), TiersId))]
      ensures group != 1 ==> tiersTempsRows == old(tiersTempsRows)
      ensures unchanged(this`dstDate, this`rows)
    {
      if group == 1 {
        AppendFreshKeepsUnique(tiersTempsRows, TiersId, BlankTiers(NextId(tiersTempsRows, TiersId)));
        tiersTempsRows := tiersTempsRows + [BlankTiers(NextId(tiersTempsRows, TiersId))];
      } else {
        AppendFreshKeepsUnique(tiersTempsRows2, TiersId, BlankTiers(NextId(tiersTempsRows2, TiersId)));
        tiersTempsRows2 := tiersTempsRows2 + [BlankTiers(NextId(tiersTempsRows2, TiersId))];
      }
    }

    /** `updateTiersTemps(group, id, field, value)`. */
    method UpdateTiersTemps(group: int, id: int, e: TiersEdit)
      requires Valid()
      modifies this
      ensures Valid()
      ensures group == 1 ==> tiersTempsRows == UpdatedTiers(old(tiersTempsRows), id, e)
      ensures group == 1 ==> tiersTempsRows2 == old(tiersTempsRows2)
      ensures group != 1 ==> tiersTempsRows2 == UpdatedTiers(old(tiersTempsRows2), id, e)
      ensures group != 1 ==> tiersTempsRows == old(tiersTempsRows)
      ensures unchanged(this`dstDate, this`rows)
    {
      if group == 1 {
        SameIdsKeepUnique(tiersTempsRows, UpdatedTiers(tiersTempsRows, id, e), TiersId);
        tiersTempsRows := UpdatedTiers(tiersTempsRows, id, e);
      } else {
        SameIdsKeepUnique(tiersTempsRows2, UpdatedTiers(tiersTempsRows2, id, e), TiersId);
        tiersTempsRows2 := UpdatedTiers(tiersTempsRows2, id, e);
      }
    }

    /** `deleteTiersTemps(group, id)`. */
    method DeleteTiersTemps(group: int, id: int)
      requires Valid()
      modifies this
      ensures Valid()
      ensures group == 1 ==> tiersTempsRows == Without(old(tiersTempsRows), TiersId, id)
      ensures group == 1 ==> tiersTempsRows2 == old(tiersTempsRows2)
      ensures group != 1 ==> tiersTempsRows2 == Without(old(tiersTempsRows2), TiersId, id)
      ensures group != 1 ==> tiersTempsRows == old(tiersTempsRows)
      ensures unchanged(this`dstDate, this`rows)
    {
      if group == 1 {
        tiersTempsRows := Without(tiersTempsRows, TiersId, id);
      } else {
        tiersTempsRows2 := Without(tiersTempsRows2, TiersId, id);
      }
    }
  }
}
