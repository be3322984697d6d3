/**
 * The programme grid editor (src/pages/Admin/ScheduleManager.tsx): the
 * `schedule` table, the listing grouped by weekday, saving and deleting.
 */
module ScheduleManagerPage {
  import opened Common
  import opened Seqs
  import opened Text

  /** A programme slot; `id` is missing on a slot not yet stored. */
  datatype ScheduleItem = ScheduleItem(
    id: Option<string>, programName: string, hostName: string,
    dayOfWeek: int, startTime: string, endTime: string, category: string)

  /** One weekday heading with its slots; the heading reads `DayName(day)`. */
  datatype Section = Section(day: int, items: seq<ScheduleItem>)

  /** `DAYS[day]`: the weekday names from Sunday (0) to Saturday (6). */
  function DayName(day: int): (name: string)
    requires 0 <= day < 7
    ensures 5 <= |name| <= 7
    ensures day == 0 <==> name == "Domingo"
  {
    match day
    case 0 => "Domingo"
    case 1 => "Segunda"
    case 2 => "Terça"
    case 3 => "Quarta"
    case 4 => "Quinta"
    case 5 => "Sexta"
    case _ => "Sábado"
  }

  /** No two weekdays share a heading. */
  lemma DayNamesDistinct(d1: int, d2: int)
    requires 0 <= d1 < 7 && 0 <= d2 < 7
    ensures DayName(d1) == DayName(d2) <==> d1 == d2
  {
    if d1 != d2 {
      assert DayName(d1)[2] != DayName(d2)[2];
    }
  }

  function DayOfWeek(item: ScheduleItem): int
  {
    item.dayOfWeek
  }

  function OnDay(day: int): ScheduleItem -> bool
  {
    (item: ScheduleItem) => item.dayOfWeek == day
  }

  /** `schedule.filter(s => s.day_of_week === day)`: that day's slots in listing order. */
  function DaySlots(schedule: seq<ScheduleItem>, day: int): (slots: seq<ScheduleItem>)
    ensures forall x :: x in slots <==> x in schedule && x.dayOfWeek == day
  {
    if schedule == [] then []
    else
      assert schedule == [schedule[0]] + schedule[1..];
      (if schedule[0].dayOfWeek == day then [schedule[0]] else []) + DaySlots(schedule[1..], day)
  }

  /**
   * The listing's `filter` by weekday: a sub-multiset of the listing, each
   * slot in the order the listing gives it.
   */
  lemma {:induction false} DaySlotsIsFilter(schedule: seq<ScheduleItem>, day: int)
    ensures DaySlots(schedule, day) == Filter(schedule, OnDay(day))
    ensures multiset(DaySlots(schedule, day)) <= multiset(schedule)
  {
    if schedule != [] {
      DaySlotsIsFilter(schedule[1..], day);
    }
  }

  /** The slot template opened by "Novo Programa". */
  function NewItem(): (item: ScheduleItem)
    ensures item.id.None? && item.dayOfWeek == 1 && DayName(item.dayOfWeek) == "Segunda"
    ensures item.startTime == "08:00" && item.endTime == "12:00" && item.category == "Live"
  {
    ScheduleItem(None, "", "", 1, "08:00", "12:00", "Live")
  }

  /** A time as displayed: its first five characters (`HH:MM`). */
  function DisplayTime(t: string): (r: string)
    ensures |r| <= 5 && r <= t
    ensures |t| >= 5 ==> |r| == 5
  {
    Take(t, 5)
  }

  /** `fetchSchedule()`: every slot ordered by weekday; none when no data comes back. */
  function FetchSchedule(rows: seq<ScheduleItem>, fails: bool): (r: seq<ScheduleItem>)
    ensures fails ==> r == []
    ensures !fails ==> SortedBy(r, DayOfWeek) && multiset(r) == multiset(rows)
  {
    if fails then [] else SortBy(rows, DayOfWeek)
  }

  /** A heading for a weekday, listing that day's slots, never empty. */
  ghost predicate IsDaySection(schedule: seq<ScheduleItem>, s: Section)
  {
    0 <= s.day < 7 && s.items == DaySlots(schedule, s.day) && s.items != []
  }

  /** The headings from weekday `day` on: one per day that has slots, in weekday order. */
  function SectionsFrom(schedule: seq<ScheduleItem>, day: nat): (sections: seq<Section>)
    requires day <= 7
    ensures |sections| <= 7 - day
    decreases 7 - day
  {
    if day == 7 then []
    else if DaySlots(schedule, day) == [] then SectionsFrom(schedule, day + 1)
    else [Section(day, DaySlots(schedule, day))] + SectionsFrom(schedule, day + 1)
  }

  /** Each heading lists exactly its own day's slots, none is empty, and none precedes `day`. */
  lemma {:induction false} SectionsFromAreDaySections(schedule: seq<ScheduleItem>, day: nat)
    requires day <= 7
    ensures forall k :: 0 <= k < |SectionsFrom(schedule, day)| ==>
              IsDaySection(schedule, SectionsFrom(schedule, day)[k]) && day <= SectionsFrom(schedule, day)[k].day
    decreases 7 - day
  {
    if day < 7 {
      var here := DaySlots(schedule, day);
      var rest := SectionsFrom(schedule, day + 1);
      var all := SectionsFrom(schedule, day);
      SectionsFromAreDaySections(schedule, day + 1);
      if here == [] {
        assert all == rest;
      } else {
        assert all == [Section(day, here)] + rest;
        forall k | 0 <= k < |all| ensures IsDaySection(schedule, all[k]) && day <= all[k].day {
          if k > 0 {
            assert all[k] == rest[k - 1];
          }
        }
      }
    }
  }

  /** The headings' days strictly ascend. */
  lemma {:induction false} SectionsFromAscend(schedule: seq<ScheduleItem>, day: nat)
    requires day <= 7
    ensures forall k, l :: 0 <= k < l < |SectionsFrom(schedule, day)| ==>
              SectionsFrom(schedule, day)[k].day < SectionsFrom(schedule, day)[l].day
    decreases 7 - day
  {
    if day < 7 {
      var here := DaySlots(schedule, day);
      var rest := SectionsFrom(schedule, day + 1);
      var all := SectionsFrom(schedule, day);
      SectionsFromAscend(schedule, day + 1);
      SectionsFromAreDaySections(schedule, day + 1);
      if here == [] {
        assert all == rest;
      } else {
        assert all == [Section(day, here)] + rest;
        forall k, l | 0 <= k < l < |all| ensures all[k].day < all[l].day {
          assert all[l] == rest[l - 1];
          if k > 0 {
            assert all[k] == rest[k - 1];
          }
        }
      }
    }
  }

  /** The grouped listing: `DAYS.map` with empty days dropped. */
  function GroupByDay(schedule: seq<ScheduleItem>): (sections: seq<Section>)
    ensures forall k :: 0 <= k < |sections| ==> IsDaySection(schedule, sections[k])
    ensures forall k, l :: 0 <= k < l < |sections| ==> sections[k].day < sections[l].day
  {
    SectionsFromAreDaySections(schedule, 0);
    SectionsFromAscend(schedule, 0);
    SectionsFrom(schedule, 0)
  }

  /** Every day in `from..6` that has slots gets a heading; `k` is its position. */
  lemma {:induction false} DayWithSlotsHasSection(schedule: seq<ScheduleItem>, from: nat, day: int) returns (k: nat)
    requires from <= day < 7 && DaySlots(schedule, day) != []
    ensures k < |SectionsFrom(schedule, from)| && SectionsFrom(schedule, from)[k].day == day
    decreases 7 - from
  {
    var here := DaySlots(schedule, from);
    var rest := SectionsFrom(schedule, from + 1);
    var all := SectionsFrom(schedule, from);
    if here == [] {
      assert all == rest;
      k := DayWithSlotsHasSection(schedule, from + 1, day);
    } else {
      assert all == [Section(from, here)] + rest;
      if day == from {
        k := 0;
      } else {
        var j := DayWithSlotsHasSection(schedule, from + 1, day);
        assert all[j + 1] == rest[j];
        k := j + 1;
      }
    }
  }

  /** A slot with a weekday in 0..6 is listed under exactly one heading: its own day's. */
  lemma SlotInExactlyOneSection(schedule: seq<ScheduleItem>, x: ScheduleItem)
    requires x in schedule && 0 <= x.dayOfWeek < 7
    ensures var sections := GroupByDay(schedule);
            exists k :: 0 <= k < |sections| && x in sections[k].items && sections[k].day == x.dayOfWeek
    ensures var sections := GroupByDay(schedule);
            forall k :: 0 <= k < |sections| && x in sections[k].items ==> sections[k].day == x.dayOfWeek
  {
    assert x in DaySlots(schedule, x.dayOfWeek);
    var k := DayWithSlotsHasSection(schedule, 0, x.dayOfWeek);
    var sections := GroupByDay(schedule);
    forall k | 0 <= k < |sections| && x in sections[k].items ensures sections[k].day == x.dayOfWeek {
      assert x in DaySlots(schedule, sections[k].day);
    }
  }

  /** A slot whose weekday lies outside 0..6 is listed nowhere. */
  lemma OutOfRangeSlotHidden(schedule: seq<ScheduleItem>, x: ScheduleItem)
    requires !(0 <= x.dayOfWeek < 7)
    ensures forall s :: s in GroupByDay(schedule) ==> x !in s.items
  {
    var sections := GroupByDay(schedule);
    forall k | 0 <= k < |sections| ensures x !in sections[k].items {
      assert sections[k].items == DaySlots(schedule, sections[k].day);
    }
  }

  /** The `schedule` table. */
  class ScheduleTable {
    var rows: seq<ScheduleItem>

    constructor (rows0: seq<ScheduleItem>)
      ensures rows == rows0
    {
      rows := rows0;
    }
  }

  /** The six fields a save writes onto a stored row; the row keeps its id. */
  function ApplyPayload(row: ScheduleItem, item: ScheduleItem): (r: ScheduleItem)
    ensures r.id == row.id && r == item.(id := row.id)
  {
    item.(id := row.id)
  }

  function UpdateWhere(rows: seq<ScheduleItem>, id: string, item: ScheduleItem): (r: seq<ScheduleItem>)
    ensures |r| == |rows|
    ensures forall i :: 0 <= i < |rows| ==> r[i] == (if rows[i].id == Some(id) then ApplyPayload(rows[i], item) else rows[i])
  {
    if rows == [] then []
    else [if rows[0].id == Some(id) then ApplyPayload(rows[0], item) else rows[0]] + UpdateWhere(rows[1..], id, item)
  }

  function IdIsNot(id: string): ScheduleItem -> bool
  {
    (item: ScheduleItem) => item.id != Some(id)
  }

  class ScheduleManager {
    const table: ScheduleTable
    var schedule: seq<ScheduleItem>
    var editing: Option<ScheduleItem>

    constructor (table: ScheduleTable)
      ensures this.table == table && schedule == [] && editing == None
    {
      this.table := table;
      schedule := [];
      editing := None;
    }

    /** `fetchSchedule()`: the grid shows every stored slot in weekday order. */
    method Fetch(fails: bool)
      modifies this`schedule
      ensures schedule == FetchSchedule(table.rows, fails)
    {
      schedule := FetchSchedule(table.rows, fails);
    }

    /** "Novo Programa": the form opens on the Monday template, with no id, so it would insert. */
    method OpenNew()
      modifies this`editing
      ensures editing == Some(NewItem()) && editing.value.id.None?
    {
      editing := Some(NewItem());
    }

    /** The edit button of a listed slot: the form opens holding that slot. */
    method OpenEdit(item: ScheduleItem)
      modifies this`editing
      ensures editing == Some(item)
    {
      editing := Some(item);
    }

    /** "Cancelar": the form closes without a backend call. */
    method Cancel()
      modifies this`editing
      ensures editing == None
    {
      editing := None;
    }

    /**
     * `handleSave`: with no open form nothing happens. Otherwise the six fields
     * are written as they are (no check that the slot starts before it ends):
     * onto the row with the form's id, or as a new row. Backend errors
     * (`fails`) are not looked at; the form closes and the grid reloads.
     */
    method HandleSave(newId: string, fails: bool, fetchFails: bool)
      modifies this, table
      ensures old(editing).None? ==> table.rows == old(table.rows) && schedule == old(schedule) && editing == None
      ensures old(editing).Some? ==> editing == None && schedule == FetchSchedule(table.rows, fetchFails)
      ensures old(editing).Some? && fails ==> table.rows == old(table.rows)
      ensures old(editing).Some? && !fails && Truthy(old(editing).value.id) ==>
                table.rows == UpdateWhere(old(table.rows), old(editing).value.id.value, old(editing).value)
      ensures old(editing).Some? && !fails && !Truthy(old(editing).value.id) ==>
                table.rows == old(table.rows) + [old(editing).value.(id := Some(newId))]
    {
      if editing.None? {
        return;
      }
      var item := editing.value;
      if !fails {
        if Truthy(item.id) {
          table.rows := UpdateWhere(table.rows, item.id.value, item);
        } else {
          table.rows := table.rows + [item.(id := Some(newId))];
        }
      }
      editing := None;
      Fetch(fetchFails);
    }

    /** `handleDelete(id)`: only after confirmation; the delete's error is ignored; then a reload. */
    method HandleDelete(id: string, confirmed: bool, fails: bool, fetchFails: bool)
      modifies this`schedule, table
      ensures !confirmed ==> table.rows == old(table.rows) && schedule == old(schedule)
      ensures confirmed ==> schedule == FetchSchedule(table.rows, fetchFails)
      ensures confirmed ==> table.rows == (if fails then old(table.rows) else Filter(old(table.rows), IdIsNot(id)))
    {
      if confirmed {
        if !fails {
          table.rows := Filter(table.rows, IdIsNot(id));
        }
        Fetch(fetchFails);
      }
    }
  }
}
