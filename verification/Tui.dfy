/** The screen state of the client (`TuiState`), drawn from a snapshot and moved by keys. */
module Tui {
  import opened Words
  import opened Names
  import opened StatsTypes
  import opened View
  import opened Cursor

  datatype ViewMode = Live | Dead
  datatype Pane = Main | Help | UnitPicker | Filter
  datatype Action = Redraw | NoAction

  const UNIT_COUNT: nat := 6

  /** The entries that the filter wants, in order, and their PIDs. */
  ghost predicate Rebuilt(entries: seq<Entry>, view: seq<nat>, pids: seq<u32>, key: SortKey, dir: SortDir, text: Name,
                          target: FilterTarget) {
    && InRange(entries, view) && SortedView(entries, view, key, dir)
    && multiset(view) == multiset(Filtered(entries, text, target))
    && ShowsExactly(entries, view, text, target)
    && |pids| == |view| && forall i :: 0 <= i < |view| ==> pids[i] == entries[view[i]].pid
  }

  class TuiState {
    var sortKey: SortKey
    var sortDir: SortDir
    var activePane: Pane
    var viewMode: ViewMode
    var filterTarget: FilterTarget
    var filterText: Name
    var unitPickerCursor: nat
    var selectedPid: Option<u32>
    var selected: nat
    var scrollOffset: nat
    var view: seq<nat>
    var viewPids: seq<u32>
    var visibleRows: u16

    constructor ()
      ensures Valid() && Seen() == START && viewMode == Live && activePane == Main
      ensures sortKey == ByName && sortDir == Desc && filterTarget == OnName && filterText == []
    {
      sortKey, sortDir := ByName, Desc;
      activePane, viewMode := Main, Live;
      filterTarget, filterText := OnName, [];
      unitPickerCursor := 0;
      selectedPid, selected, scrollOffset := None, 0, 0;
      view, viewPids, visibleRows := [], [], 0;
    }

    ghost predicate Valid()
      reads this
    {
      |view| == |viewPids|
    }

    ghost function Seen(): Screen
      reads this
    {
      Screen(viewPids, selectedPid, selected, scrollOffset, visibleRows)
    }

    /** The entries of the table being shown. */
    ghost function Shown(snap: SnapshotData): (r: seq<Entry>)
      reads this`viewMode
      ensures |r| == if viewMode.Live? then |snap.rows| else |snap.deadProcs|
      ensures r == if viewMode.Live? then Entries(snap.rows) else DeadEntries(snap.deadProcs)
    {
      if viewMode.Live? then Entries(snap.rows) else DeadEntries(snap.deadProcs)
    }

    /**
     `render`: the view is rebuilt from the snapshot, filtered and sorted; then the cursor is resolved
     against it.
     */
    method Render(snap: SnapshotData, height: u16)
      modifies this`view, this`viewPids, this`selected, this`scrollOffset, this`selectedPid, this`visibleRows
      ensures Valid()
      ensures Rebuilt(Shown(snap), view, viewPids, sortKey, sortDir, filterText, filterTarget)
      ensures Seen() == Rendered(old(Seen()), viewPids, Max(height - 3, 0))
    {
      Refresh(snap);
      Place(height);
    }

    method Refresh(snap: SnapshotData)
      modifies this`view, this`viewPids
      ensures Valid()
      ensures Rebuilt(Shown(snap), view, viewPids, sortKey, sortDir, filterText, filterTarget)
    {
      var entries := Select(snap);
      view, viewPids := Rebuild(entries);
    }

    /** `render_table` and `render_dead_table`, up to the drawing. */
    method Place(height: u16)
      requires Valid()
      modifies this`selected, this`scrollOffset, this`selectedPid, this`visibleRows
      ensures Seen() == Rendered(old(Seen()), viewPids, Max(height - 3, 0))
    {
      if view == [] {
        visibleRows := 0;
        return;
      }
      var (row, pid) := Resolve(viewPids, selectedPid);
      visibleRows := Max(height - 3, 0);
      var (sel, off) := ClampScroll(row, scrollOffset, visibleRows, |view|);
      selected, scrollOffset, selectedPid := sel, off, pid;
    }

    method Select(snap: SnapshotData) returns (entries: seq<Entry>)
      ensures entries == Shown(snap)
    {
      if viewMode.Live? {
        entries := seq(|snap.rows|, i requires 0 <= i < |snap.rows| => RowEntry(snap.rows[i]));
      } else {
        entries := seq(|snap.deadProcs|, i requires 0 <= i < |snap.deadProcs| => DeadEntry(snap.deadProcs[i]));
      }
    }

    method Rebuild(entries: seq<Entry>) returns (indices: seq<nat>, pids: seq<u32>)
      ensures Rebuilt(entries, indices, pids, sortKey, sortDir, filterText, filterTarget)
    {
      var chosen := Filtered(entries, filterText, filterTarget);
      ghost var from;
      indices, from := SortIndices(entries, chosen, sortKey, sortDir);
      AscendingStable(entries, chosen, indices, from, sortKey, sortDir);
      ViewShowsWanted(entries, indices, filterText, filterTarget);
      pids := PidsOf(entries, indices);
    }

    /** `move_cursor` */
    method MoveCursor(up: bool) returns (a: Action)
      requires Valid()
      modifies this`selected, this`scrollOffset, this`selectedPid, this`unitPickerCursor
      ensures Valid()
      ensures Seen() == if activePane.Main? then Moved(old(Seen()), up) else old(Seen())
      ensures activePane.Main? && old(selected) < |view| ==>
                && selected == (if up then (if old(selected) == 0 then 0 else old(selected) - 1)
                                else if old(selected) == |view| - 1 then old(selected) else old(selected) + 1)
                && selectedPid == Some(viewPids[selected])
      ensures unitPickerCursor == if !activePane.UnitPicker? then old(unitPickerCursor)
                                  else if up then Max(old(unitPickerCursor) - 1, 0)
                                  else Min(old(unitPickerCursor) + 1, UNIT_COUNT - 1)
      ensures a == if activePane.UnitPicker? || (activePane.Main? && view != []) then Redraw else NoAction
    {
      match activePane {
        case Main =>
          if |view| == 0 {
            return NoAction;
          }
          var next := if up then Max(selected - 1, 0) else Min(selected + 1, |view| - 1);
          var (sel, off) := ClampScroll(next, scrollOffset, visibleRows, |view|);
          selected, scrollOffset := sel, off;
          selectedPid := if sel < |viewPids| then Some(viewPids[sel]) else None;
          return Redraw;
        case UnitPicker =>
          unitPickerCursor := if up then Max(unitPickerCursor - 1, 0) else Min(unitPickerCursor + 1, UNIT_COUNT - 1);
          return Redraw;
        case _ =>
          return NoAction;
      }
    }

    /** The key that switches between live and dead processes. */
    method ToggleMode()
      requires Valid()
      modifies this`viewMode, this`selected, this`scrollOffset, this`selectedPid
      ensures Valid() && Seen() == Toggled(old(Seen())) && viewMode != old(viewMode)
      ensures selectedPid == None && selected == 0 && scrollOffset == 0
    {
      viewMode := if viewMode.Live? then Dead else Live;
      selectedPid, selected, scrollOffset := None, 0, 0;
    }
  }
}
