/** The scroll window and the PID-locked cursor (`view.rs`, `render_table`; `input.rs`, `move_cursor`). */
module Cursor {
  import opened Words

  /** `clamp_scroll` */
  function ClampScroll(selected: nat, offset: nat, visible: nat, len: nat): (nat, nat) {
    if len == 0 then (0, 0)
    else
      var sel := Min(selected, len - 1);
      if visible == 0 || len <= visible then (sel, 0)
      else
        var off := Min(offset, len - visible);
        if sel < off then (sel, sel)
        else if sel > off + visible - 1 then (sel, sel + 1 - visible)
        else (sel, off)
  }

  /** Offsets that show row `sel` and leave no empty rows at the bottom. */
  ghost predicate GoodOffset(sel: nat, offset: nat, visible: nat, len: nat) {
    if visible == 0 || len <= visible then offset == 0
    else offset <= len - visible && offset <= sel < offset + visible
  }

  function Distance(a: int, b: int): nat {
    if a <= b then b - a else a - b
  }

  /** The clamped offset is good, the nearest good one to the old, and no other is as near. */
  lemma ClampIsNearest(selected: nat, offset: nat, visible: nat, len: nat, other: nat)
    requires len > 0
    ensures var (sel, off) := ClampScroll(selected, offset, visible, len);
            && sel == Min(selected, len - 1)
            && GoodOffset(sel, off, visible, len)
            && (GoodOffset(sel, other, visible, len) && other != off ==>
                  Distance(offset, off) < Distance(offset, other))
  {
  }

  /** Clamping twice changes nothing. */
  lemma ClampIdempotent(selected: nat, offset: nat, visible: nat, len: nat)
    ensures var (sel, off) := ClampScroll(selected, offset, visible, len);
            ClampScroll(sel, off, visible, len) == (sel, off)
  {
  }

  /** The part of `TuiState` the cursor lives in; `pids` are those of the last rendered view. */
  datatype Screen = Screen(pids: seq<u32>, locked: Option<u32>, selected: nat, offset: nat, visible: nat)

  ghost predicate FirstAt(pids: seq<u32>, pid: u32, i: nat) {
    i < |pids| && pids[i] == pid && forall k :: 0 <= k < i ==> pids[k] != pid
  }

  /** `Iterator::position` */
  function Position(pids: seq<u32>, pid: u32): (r: Option<nat>)
    ensures r.Some? ==> r.value < |pids| && pids[r.value] == pid && forall k :: 0 <= k < r.value ==> pids[k] != pid
    ensures r.None? ==> pid !in pids
  {
    if pids == [] then None
    else if pids[0] == pid then Some(0)
    else
      match Position(pids[1..], pid)
      case None => None
      case Some(i) => Some(i + 1)
  }

  /** The row to show the cursor on, and the PID it stays locked to. */
  function Resolve(pids: seq<u32>, locked: Option<u32>): (nat, Option<u32>) {
    match locked
    case None => (0, None)
    case Some(pid) =>
      match Position(pids, pid) case None => (0, None) case Some(i) => (i, locked)
  }

  /** What drawing a view with these PIDs in a window of `visible` rows does to the screen. */
  function Rendered(s: Screen, pids: seq<u32>, visible: nat): Screen {
    if pids == [] then s.(pids := [], visible := 0)
    else
      var (row, pid) := Resolve(pids, s.locked);
      var (sel, off) := ClampScroll(row, s.offset, visible, |pids|);
      Screen(pids, pid, sel, off, visible)
  }

  /** `move_cursor` in the main pane. */
  function Moved(s: Screen, up: bool): Screen {
    if s.pids == [] then s
    else
      var next := if up then Max(s.selected - 1, 0) else Min(s.selected + 1, |s.pids| - 1);
      var (sel, off) := ClampScroll(next, s.offset, s.visible, |s.pids|);
      s.(selected := sel, offset := off, locked := if sel < |s.pids| then Some(s.pids[sel]) else None)
  }

  /**
   Where a move lands: one row up, or on the top row from there; one row down, or on the last row from there. The
   window is moved no further than it takes to show that row.
   */
  lemma MoveLands(s: Screen, up: bool, other: nat)
    requires s.selected < |s.pids|
    ensures var m := Moved(s, up);
            && m.selected == (if up then (if s.selected == 0 then 0 else s.selected - 1)
                              else if s.selected == |s.pids| - 1 then s.selected else s.selected + 1)
            && m.pids == s.pids && m.visible == s.visible && m.locked == Some(s.pids[m.selected])
            && GoodOffset(m.selected, m.offset, s.visible, |s.pids|)
            && (GoodOffset(m.selected, other, s.visible, |s.pids|) && other != m.offset ==>
                  Distance(s.offset, m.offset) < Distance(s.offset, other))
  {
  }

  /** `n` moves in one direction go `n` rows, or as far as there are rows. */
  lemma {:induction false} MovesAddUp(s: Screen, up: bool, n: nat)
    requires s.selected < |s.pids|
    ensures var r := From(s, seq(n, _ => Move(up)));
            && r.pids == s.pids
            && r.selected == if up then Max(0, s.selected - n) else Min(|s.pids| - 1, s.selected + n)
  {
    var all := seq(n, _ => Move(up));
    if n > 0 {
      assert all[..n - 1] == seq(n - 1, _ => Move(up)) && all[n - 1] == Move(up);
      MovesAddUp(s, up, n - 1);
      MoveLands(From(s, all[..n - 1]), up, 0);
    }
  }

  /** Switching between live and dead processes. */
  function Toggled(s: Screen): Screen {
    s.(locked := None, selected := 0, offset := 0)
  }

  datatype Input = Draw(pids: seq<u32>, visible: nat) | Move(up: bool) | Toggle

  const START := Screen([], None, 0, 0, 0)

  function React(s: Screen, input: Input): Screen {
    match input
    case Draw(pids, visible) => Rendered(s, pids, visible)
    case Move(up) => Moved(s, up)
    case Toggle => Toggled(s)
  }

  /** What a sequence of inputs makes of a screen. */
  function From(s: Screen, inputs: seq<Input>): Screen
    decreases |inputs|
  {
    if inputs == [] then s else React(From(s, inputs[..|inputs| - 1]), inputs[|inputs| - 1])
  }

  ghost predicate Consistent(s: Screen) {
    s.pids != [] ==>
      && s.selected < |s.pids|
      && (s.locked.None? ==> s.selected == 0)
      && (s.locked.Some? ==> s.pids[s.selected] == s.locked.value)
      && GoodOffset(s.selected, s.offset, s.visible, |s.pids|)
  }

  /**
   Every input leaves the cursor on a row of the view, row 0 unless it is locked, a row of the locked
   PID if it is, and that row inside the window.
   */
  lemma InputsConsistent(s: Screen, pids: seq<u32>, visible: nat, up: bool)
    ensures Consistent(Rendered(s, pids, visible)) && Consistent(Moved(s, up)) && Consistent(Toggled(s))
  {
  }

  // A lock over whole runs

  ghost predicate NoMove(inputs: seq<Input>) {
    forall i :: 0 <= i < |inputs| ==> !inputs[i].Move?
  }

  /** No switch between live and dead, and `pid` in every view drawn that shows anything. */
  ghost predicate StaysInView(inputs: seq<Input>, pid: u32) {
    && (forall i :: 0 <= i < |inputs| ==> !inputs[i].Toggle?)
    && (forall i :: 0 <= i < |inputs| && inputs[i].Draw? && inputs[i].pids != [] ==> pid in inputs[i].pids)
  }

  /** The PIDs of the last view that showed anything: `pids` if none of the inputs drew one. */
  function LastShown(pids: seq<u32>, inputs: seq<Input>): seq<u32>
    decreases |inputs|
  {
    if inputs == [] then pids
    else
      var last := inputs[|inputs| - 1];
      if last.Draw? && last.pids != [] then last.pids else LastShown(pids, inputs[..|inputs| - 1])
  }

  ghost predicate Drew(inputs: seq<Input>) {
    exists i :: 0 <= i < |inputs| && inputs[i].Draw? && inputs[i].pids != []
  }

  /** Without a move there is no new lock, and the old one holds exactly as long as its PID stays in view. */
  lemma {:induction false} LockHolds(s: Screen, inputs: seq<Input>, pid: u32)
    requires s.locked == Some(pid) && NoMove(inputs)
    ensures From(s, inputs).locked == if StaysInView(inputs, pid) then Some(pid) else None
    decreases |inputs|
  {
    if inputs != [] {
      var init, last := inputs[..|inputs| - 1], inputs[|inputs| - 1];
      LockHolds(s, init, pid);
      StaysInViewOneMore(init, last, pid);
      assert inputs == init + [last];
      if last.Draw? && last.pids != [] {
        LockFollowsPid(From(s, init), last.pids, last.visible);
      }
    }
  }

  lemma StaysInViewOneMore(init: seq<Input>, last: Input, pid: u32)
    ensures StaysInView(init + [last], pid)
            <==> StaysInView(init, pid) && !last.Toggle? && (last.Draw? && last.pids != [] ==> pid in last.pids)
  {
    var all := init + [last];
    assert all[|init|] == last;
    assert forall i :: 0 <= i < |init| ==> all[i] == init[i];
  }

  lemma {:induction false} CursorOnFirstRow(s: Screen, inputs: seq<Input>, pid: u32)
    requires s.locked == Some(pid) && NoMove(inputs) && StaysInView(inputs, pid) && Drew(inputs)
    ensures FirstAt(LastShown(s.pids, inputs), pid, From(s, inputs).selected)
    decreases |inputs|
  {
    var init, last := inputs[..|inputs| - 1], inputs[|inputs| - 1];
    assert inputs == init + [last];
    StaysInViewOneMore(init, last, pid);
    LockHolds(s, init, pid);
    if last.Draw? && last.pids != [] {
      LockFollowsPid(From(s, init), last.pids, last.visible);
    } else {
      var i :| 0 <= i < |inputs| && inputs[i].Draw? && inputs[i].pids != [];
      assert init[i] == inputs[i];
      CursorOnFirstRow(s, init, pid);
    }
  }

  lemma {:induction false} CursorStays(s: Screen, inputs: seq<Input>, pid: u32)
    requires NoMove(inputs) && StaysInView(inputs, pid) && !Drew(inputs)
    ensures From(s, inputs).selected == s.selected
    decreases |inputs|
  {
    if inputs != [] {
      var init := inputs[..|inputs| - 1];
      assert forall i :: 0 <= i < |init| ==> init[i] == inputs[i];
      CursorStays(s, init, pid);
    }
  }

  /**
   The lock over whole runs. A move in any screen that shows something locks the PID of the row it lands
   on. Through all that follows until the next move the lock is that PID if and only if nobody switched
   between live and dead and every view drawn since that was not empty contained the PID; otherwise
   it is released. While it holds, the cursor is on the PID's first row of the last view that showed anything.
   */
  lemma LockOverRuns(before: seq<Input>, up: bool, rest: seq<Input>)
    requires From(START, before).pids != [] && NoMove(rest)
    ensures var m := Moved(From(START, before), up);
            var r := From(START, before + [Move(up)] + rest);
            && m.selected < |m.pids|
            && r.locked == (if StaysInView(rest, m.pids[m.selected]) then Some(m.pids[m.selected]) else None)
            && (r.locked.Some? && Drew(rest) ==> FirstAt(LastShown(m.pids, rest), m.pids[m.selected], r.selected))
            && (r.locked.Some? && !Drew(rest) ==> r.selected == m.selected)
  {
    var m := Moved(From(START, before), up);
    InputsConsistent(From(START, before), [], 0, up);
    FromSplit(START, before + [Move(up)], rest);
    assert (before + [Move(up)])[..|before|] == before;
    assert From(START, before + [Move(up)]) == m;
    LockHolds(m, rest, m.pids[m.selected]);
    if StaysInView(rest, m.pids[m.selected]) {
      if Drew(rest) {
        CursorOnFirstRow(m, rest, m.pids[m.selected]);
      } else {
        CursorStays(m, rest, m.pids[m.selected]);
      }
    }
  }

  lemma {:induction false} FromSplit(s: Screen, a: seq<Input>, b: seq<Input>)
    ensures From(s, a + b) == From(From(s, a), b)
    decreases |b|
  {
    if b == [] {
      assert a + b == a;
    } else {
      var init, last := b[..|b| - 1], b[|b| - 1];
      FromSplit(s, a, init);
      assert (a + b)[..|a + b| - 1] == a + init && (a + b)[|a + b| - 1] == last;
      assert From(s, a + b) == React(From(s, a + init), last);
    }
  }

  /** A lock survives a draw exactly when its PID is still in the view; otherwise it is released to the top row. */
  lemma LockFollowsPid(s: Screen, pids: seq<u32>, visible: nat)
    requires pids != []
    ensures var r := Rendered(s, pids, visible);
            && r.locked == (if s.locked.Some? && s.locked.value in pids then s.locked else None)
            && (r.locked.Some? ==> FirstAt(pids, r.locked.value, r.selected))
            && (r.locked.None? ==> r.selected == 0)
            && r.pids == pids && r.visible == visible
  {
    if s.locked.Some? && s.locked.value in pids {
      var i :| 0 <= i < |pids| && pids[i] == s.locked.value;
      assert Position(pids, s.locked.value).Some?;
    }
  }

  /** A draw moves the window no further than it takes to show the cursor's row. */
  lemma DrawMovesWindowLeast(s: Screen, pids: seq<u32>, visible: nat, other: nat)
    requires pids != []
    ensures var r := Rendered(s, pids, visible);
            && GoodOffset(r.selected, r.offset, visible, |pids|)
            && (GoodOffset(r.selected, other, visible, |pids|) && other != r.offset ==>
                  Distance(s.offset, r.offset) < Distance(s.offset, other))
  {
    var (row, _) := Resolve(pids, s.locked);
    ClampIsNearest(row, s.offset, visible, |pids|, other);
  }

  /**
   A move followed by a redraw of the same view at the same height leaves the cursor where the move put
   it exactly when no earlier row has the same PID; with distinct PIDs, as live rows have, always.
   */
  lemma MoveThenRender(s: Screen, up: bool)
    requires s.pids != []
    ensures var m := Moved(s, up);
            Rendered(m, s.pids, s.visible) == m <==> forall k :: 0 <= k < m.selected ==> s.pids[k] != s.pids[m.selected]
    ensures NoDuplicates(s.pids) ==> Rendered(Moved(s, up), s.pids, s.visible) == Moved(s, up)
  {
    var m := Moved(s, up);
    InputsConsistent(s, [], 0, up);
    var next := if up then Max(s.selected - 1, 0) else Min(s.selected + 1, |s.pids| - 1);
    ClampIdempotent(next, s.offset, s.visible, |s.pids|);
    var p := Position(s.pids, s.pids[m.selected]);
    assert p.Some? && p.value <= m.selected;
    if p.value < m.selected {
      assert s.pids[p.value] == s.pids[m.selected];
      ClampIsNearest(p.value, m.offset, s.visible, |s.pids|, 0);
    }
  }

  /** With a repeated PID, as dead processes may have, the cursor can jump back. */
  lemma RepeatedPidJumps()
    ensures var s := Screen([7, 7], Some(7), 0, 0, 10);
            Consistent(s) && Moved(s, false).selected == 1 && Rendered(Moved(s, false), s.pids, s.visible).selected == 0
  {
  }
}
