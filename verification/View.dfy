/** Filtering and sorting the process table (`procnet/src/tui/view.rs`). */
module View {
  import opened Words
  import opened Names
  import opened StatsTypes

  datatype SortKey = Pid | ByName | Sent | Recv | Total
  datatype SortDir = Asc | Desc
  datatype FilterTarget = OnName | OnPid

  /** What sorting and filtering look at, for a live row or a dead process alike. */
  datatype Entry = Entry(pid: u32, name: Name, total: StatsBytes)

  function RowEntry(r: StatsRow): Entry {
    Entry(r.pid, r.name, r.tcp.bytes.Merge(r.udp.bytes))
  }

  function DeadEntry(p: ProcInfo): Entry {
    Entry(p.pid, p.name, p.tcpCum.Merge(p.udpCum))
  }

  // The order

  datatype Order = Less | Equal | Greater

  function Flip(o: Order): Order {
    match o case Less => Greater case Equal => Equal case Greater => Less
  }

  function CompareInt(a: int, b: int): Order {
    if a < b then Less else if a == b then Equal else Greater
  }

  /** `str::cmp`: byte by byte, a proper prefix first. */
  function CompareName(a: seq<byte>, b: seq<byte>): Order {
    if a == [] then (if b == [] then Equal else Less)
    else if b == [] then Greater
    else if a[0] != b[0] then CompareInt(a[0], b[0])
    else CompareName(a[1..], b[1..])
  }

  function Primary(a: Entry, b: Entry, key: SortKey): Order {
    match key
    case Pid => CompareInt(a.pid, b.pid)
    case ByName => CompareName(a.name, b.name)
    case Sent => CompareInt(a.total.sent, b.total.sent)
    case Recv => CompareInt(a.total.recv, b.total.recv)
    case Total => CompareInt(a.total.Combine(), b.total.Combine())
  }

  /** The comparison handed to the sort: the chosen column, then PIDs ascending whatever the direction. */
  function Compare(a: Entry, b: Entry, key: SortKey, dir: SortDir): Order {
    var primary := if dir == Desc then Flip(Primary(a, b, key)) else Primary(a, b, key);
    if primary == Equal then CompareInt(a.pid, b.pid) else primary
  }

  lemma {:induction false} NameOrder(a: seq<byte>, b: seq<byte>, c: seq<byte>)
    ensures CompareName(b, a) == Flip(CompareName(a, b))
    ensures CompareName(a, b) == Equal <==> a == b
    ensures CompareName(a, b) != Greater && CompareName(b, c) != Greater ==> CompareName(a, c) != Greater
    ensures CompareName(a, b) == Less && CompareName(b, c) != Greater ==> CompareName(a, c) == Less
    ensures CompareName(a, b) != Greater && CompareName(b, c) == Less ==> CompareName(a, c) == Less
    decreases |a|
  {
    if a != [] && b != [] {
      assert a == [a[0]] + a[1..] && b == [b[0]] + b[1..];
      NameOrder(a[1..], b[1..], if c == [] then [] else c[1..]);
    }
  }

  lemma PrimaryOrder(a: Entry, b: Entry, c: Entry, key: SortKey)
    ensures Primary(b, a, key) == Flip(Primary(a, b, key))
    ensures Primary(a, b, key) != Greater && Primary(b, c, key) != Greater ==> Primary(a, c, key) != Greater
    ensures Primary(a, b, key) == Less && Primary(b, c, key) != Greater ==> Primary(a, c, key) == Less
    ensures Primary(a, b, key) != Greater && Primary(b, c, key) == Less ==> Primary(a, c, key) == Less
  {
    NameOrder(a.name, b.name, c.name);
  }

  /** It is a total order on entries with different PIDs: antisymmetric, transitive, never undecided. */
  lemma CompareOrder(a: Entry, b: Entry, c: Entry, key: SortKey, dir: SortDir)
    ensures Compare(b, a, key, dir) == Flip(Compare(a, b, key, dir))
    ensures Compare(a, b, key, dir) == Equal ==> a.pid == b.pid
    ensures Compare(a, b, key, dir) != Greater && Compare(b, c, key, dir) != Greater ==>
              Compare(a, c, key, dir) != Greater
    ensures Compare(a, b, key, dir) == Less && Compare(b, c, key, dir) != Greater ==> Compare(a, c, key, dir) == Less
    ensures Compare(a, b, key, dir) != Greater && Compare(b, c, key, dir) == Less ==> Compare(a, c, key, dir) == Less
  {
    PrimaryOrder(a, b, c, key);
    PrimaryOrder(b, a, c, key);
    PrimaryOrder(c, b, a, key);
    PrimaryOrder(c, a, b, key);
  }

  // Stable sorting of indices

  ghost predicate InRange(entries: seq<Entry>, view: seq<nat>) {
    forall i :: 0 <= i < |view| ==> view[i] < |entries|
  }

  ghost predicate Ascending(view: seq<nat>) {
    forall i, j :: 0 <= i < j < |view| ==> view[i] < view[j]
  }

  /** Strictly before in the sorted table: smaller, or equal and earlier in the snapshot. */
  ghost predicate Precedes(entries: seq<Entry>, i: nat, j: nat, key: SortKey, dir: SortDir)
    requires i < |entries| && j < |entries|
  {
    var o := Compare(entries[i], entries[j], key, dir);
    o == Less || (o == Equal && i < j)
  }

  ghost predicate SortedView(entries: seq<Entry>, view: seq<nat>, key: SortKey, dir: SortDir)
    requires InRange(entries, view)
  {
    forall i, j :: 0 <= i < j < |view| ==> Precedes(entries, view[i], view[j], key, dir)
  }

  /** The entries a list of indices points to. */
  function Items(entries: seq<Entry>, view: seq<nat>): (r: seq<Entry>)
    requires forall i :: 0 <= i < |view| ==> view[i] < |entries|
    ensures |r| == |view| && forall i :: 0 <= i < |view| ==> r[i] == entries[view[i]]
  {
    seq(|view|, i requires 0 <= i < |view| => entries[view[i]])
  }

  /** `sorted[i]` stood at position `from[i]`. */
  ghost predicate CameFrom(view: seq<nat>, sorted: seq<nat>, from: seq<nat>) {
    |from| == |sorted| && forall i :: 0 <= i < |from| ==> from[i] < |view| && sorted[i] == view[from[i]]
  }

  /** In order, and what compares equal keeps its order. */
  ghost predicate StablySorted(entries: seq<Entry>, view: seq<nat>, sorted: seq<nat>, from: seq<nat>,
                               key: SortKey, dir: SortDir)
    requires InRange(entries, view)
  {
    && CameFrom(view, sorted, from)
    && SortedView(Items(entries, view), from, key, dir)
  }

  /** The stable sort behind `sort_rows` and `sort_dead_procs`. */
  method SortIndices(entries: seq<Entry>, view: seq<nat>, key: SortKey, dir: SortDir)
    returns (sorted: seq<nat>, ghost from: seq<nat>)
    requires InRange(entries, view)
    ensures InRange(entries, sorted) && multiset(sorted) == multiset(view)
    ensures StablySorted(entries, view, sorted, from, key, dir)
  {
    sorted, from := [], [];
    for i := 0 to |view|
      invariant InRange(entries, sorted) && multiset(sorted) == multiset(view[..i])
      invariant StablySorted(entries, view, sorted, from, key, dir) && Below(from, i)
    {
      var j := Slot(entries, sorted, view[i], key, dir);
      InsertStable(entries, view, sorted, from, i, j, key, dir);
      InsertCounts(sorted, view, i, j);
      sorted, from := sorted[..j] + [view[i]] + sorted[j..], from[..j] + [i] + from[j..];
    }
    assert view[..|view|] == view;
  }

  ghost predicate Below(s: seq<nat>, n: nat) {
    forall k :: 0 <= k < |s| ==> s[k] < n
  }

  lemma InsertStable(entries: seq<Entry>, view: seq<nat>, s: seq<nat>, from: seq<nat>, i: nat, j: nat,
                     key: SortKey, dir: SortDir)
    requires InRange(entries, view) && InRange(entries, s) && i < |view| && j <= |s|
    requires StablySorted(entries, view, s, from, key, dir) && Below(from, i)
    requires forall k :: j <= k < |s| ==> Compare(entries[view[i]], entries[s[k]], key, dir) == Less
    requires j > 0 ==> Compare(entries[view[i]], entries[s[j - 1]], key, dir) != Less
    ensures StablySorted(entries, view, s[..j] + [view[i]] + s[j..], from[..j] + [i] + from[j..], key, dir)
    ensures Below(from[..j] + [i] + from[j..], i + 1)
  {
    InsertCameFrom(view, s, from, i, j);
    var items := Items(entries, view);
    forall k | 0 <= k < |s| ensures items[from[k]] == entries[s[k]] {
    }
    InsertSorts(items, from, i, j, key, dir);
  }

  lemma InsertCameFrom(view: seq<nat>, s: seq<nat>, from: seq<nat>, i: nat, j: nat)
    requires CameFrom(view, s, from) && Below(from, i) && i < |view| && j <= |s|
    ensures CameFrom(view, s[..j] + [view[i]] + s[j..], from[..j] + [i] + from[j..])
    ensures Below(from[..j] + [i] + from[j..], i + 1)
  {
  }

  /** On ascending indices, as `render` passes them, ties end up in the order of the snapshot. */
  lemma AscendingStable(entries: seq<Entry>, view: seq<nat>, sorted: seq<nat>, from: seq<nat>,
                        key: SortKey, dir: SortDir)
    requires InRange(entries, view) && Ascending(view) && StablySorted(entries, view, sorted, from, key, dir)
    ensures InRange(entries, sorted) && SortedView(entries, sorted, key, dir)
  {
    forall i, j | 0 <= i < j < |sorted| ensures Precedes(entries, sorted[i], sorted[j], key, dir) {
      assert Precedes(Items(entries, view), from[i], from[j], key, dir);
    }
  }

  /** Where `x` goes: after everything that is not greater. */
  method Slot(entries: seq<Entry>, sorted: seq<nat>, x: nat, key: SortKey, dir: SortDir) returns (j: nat)
    requires InRange(entries, sorted) && x < |entries|
    ensures j <= |sorted|
    ensures forall k :: j <= k < |sorted| ==> Compare(entries[x], entries[sorted[k]], key, dir) == Less
    ensures j > 0 ==> Compare(entries[x], entries[sorted[j - 1]], key, dir) != Less
  {
    j := |sorted|;
    while j > 0 && Compare(entries[x], entries[sorted[j - 1]], key, dir) == Less
      invariant 0 <= j <= |sorted|
      invariant forall k :: j <= k < |sorted| ==> Compare(entries[x], entries[sorted[k]], key, dir) == Less
    {
      j := j - 1;
    }
  }

  lemma InsertCounts(s: seq<nat>, view: seq<nat>, i: nat, j: nat)
    requires j <= |s| && i < |view| && multiset(s) == multiset(view[..i])
    ensures multiset(s[..j] + [view[i]] + s[j..]) == multiset(view[..i + 1])
  {
    assert s == s[..j] + s[j..];
    assert view[..i + 1] == view[..i] + [view[i]];
  }

  lemma InsertSorts(entries: seq<Entry>, s: seq<nat>, x: nat, j: nat, key: SortKey, dir: SortDir)
    requires InRange(entries, s) && SortedView(entries, s, key, dir) && x < |entries| && j <= |s|
    requires forall k :: 0 <= k < |s| ==> s[k] < x
    requires forall k :: j <= k < |s| ==> Compare(entries[x], entries[s[k]], key, dir) == Less
    requires j > 0 ==> Compare(entries[x], entries[s[j - 1]], key, dir) != Less
    ensures InRange(entries, s[..j] + [x] + s[j..]) && SortedView(entries, s[..j] + [x] + s[j..], key, dir)
  {
    forall k | 0 <= k < j ensures Precedes(entries, s[k], x, key, dir) {
      var last := s[j - 1];
      CompareOrder(entries[x], entries[last], entries[last], key, dir);
      CompareOrder(entries[s[k]], entries[last], entries[x], key, dir);
      if k < j - 1 {
        assert Precedes(entries, s[k], last, key, dir);
      }
    }
  }

  // Filtering

  predicate StartsAt(s: seq<byte>, sub: seq<byte>, i: nat)
    requires i + |sub| <= |s|
  {
    s[i..i + |sub|] == sub
  }

  /** `str::contains` */
  predicate Contains(s: seq<byte>, sub: seq<byte>) {
    exists i :: 0 <= i <= |s| - |sub| && StartsAt(s, sub, i)
  }

  /** `u32::to_string` */
  function Decimal(n: nat): seq<byte> {
    var digit: byte := 48 + n % 10;
    if n < 10 then [digit] else Decimal(n / 10) + [digit]
  }

  predicate Matches(e: Entry, text: Name, target: FilterTarget) {
    || text == []
    || (match target
        case OnName => Contains(e.name, Lower(text))
        case OnPid => Contains(Decimal(e.pid), Lower(text)))
  }

  // What the filter means

  /** What digits say when they are read from left to right. */
  function Value(s: seq<byte>): int {
    if s == [] then 0 else 10 * Value(s[..|s| - 1]) + (s[|s| - 1] - '0' as int)
  }

  ghost predicate Digits(s: seq<byte>) {
    forall i :: 0 <= i < |s| ==> '0' as int <= s[i] <= '9' as int
  }

  /** A number as it is written: digits, no zero in front of others, and read as that number. */
  ghost predicate Spells(s: seq<byte>, n: nat) {
    s != [] && Digits(s) && (|s| > 1 ==> s[0] != '0' as int) && Value(s) == n
  }

  lemma {:induction false} DecimalSpells(n: nat)
    ensures Spells(Decimal(n), n)
    ensures n >= 10 ==> |Decimal(n)| > 1
  {
    if n < 10 {
      assert Decimal(n)[..0] == [];
    } else {
      DecimalSpells(n / 10);
      var d := Decimal(n);
      assert d[..|d| - 1] == Decimal(n / 10);
      if n < 100 {
        assert Decimal(n / 10) == [48 + n / 10];
      }
    }
  }

  lemma {:induction false} DigitsCount(s: seq<byte>)
    requires Digits(s)
    ensures Value(s) >= 0 && (s != [] && s[0] != '0' as int ==> Value(s) > 0)
  {
    if s != [] {
      DigitsCount(s[..|s| - 1]);
    }
  }

  /** There is one way to write a number. */
  lemma {:induction false} SpelledOnce(s: seq<byte>, n: nat)
    requires Spells(s, n)
    ensures s == Decimal(n)
  {
    var init, last := s[..|s| - 1], s[|s| - 1];
    assert s == init + [last];
    DigitsCount(init);
    if |s| == 1 {
      assert Value(init) == 0;
    } else {
      assert Value(init) == n / 10 > 0;
      assert Spells(init, n / 10);
      SpelledOnce(init, n / 10);
    }
  }

  ghost predicate Occurs(sub: seq<byte>, s: seq<byte>) {
    exists before, after :: s == before + sub + after
  }

  lemma ContainsIsOccurs(s: seq<byte>, sub: seq<byte>)
    ensures Contains(s, sub) <==> Occurs(sub, s)
  {
    if Contains(s, sub) {
      var i :| 0 <= i <= |s| - |sub| && StartsAt(s, sub, i);
      assert s == s[..i] + sub + s[i + |sub|..];
    }
    if Occurs(sub, s) {
      var before, after :| s == before + sub + after;
      assert StartsAt(s, sub, |before|);
    }
  }

  /**
   What a filter asks for: nothing, or that its text, in lower case, occurs in the name, or in the PID as it is
   written.
   */
  ghost predicate Wanted(pid: u32, name: Name, text: Name, target: FilterTarget) {
    || text == []
    || (match target
        case OnName => Occurs(LowerBytes(text), name)
        case OnPid => exists written :: Spells(written, pid) && Occurs(LowerBytes(text), written))
  }

  lemma MatchesMeans(e: Entry, text: Name, target: FilterTarget)
    ensures Matches(e, text, target) <==> Wanted(e.pid, e.name, text, target)
  {
    ContainsIsOccurs(e.name, Lower(text));
    ContainsIsOccurs(Decimal(e.pid), Lower(text));
    assert Lower(text) == LowerBytes(text);
    DecimalSpells(e.pid);
    forall written | Spells(written, e.pid) ensures written == Decimal(e.pid) {
      SpelledOnce(written, e.pid);
    }
  }

  /** The indices of the entries that pass the filter, ascending. */
  function Filtered(entries: seq<Entry>, text: Name, target: FilterTarget): (view: seq<nat>)
    ensures forall i :: 0 <= i < |view| ==> view[i] < |entries|
    ensures forall i, j :: 0 <= i < j < |view| ==> view[i] < view[j]
    ensures forall k :: k in view <==> 0 <= k < |entries| && Matches(entries[k], text, target)
  {
    if entries == [] then []
    else
      var n := |entries| - 1;
      var init := Filtered(entries[..n], text, target);
      if Matches(entries[n], text, target) then init + [n] else init
  }

  function PidsOf(entries: seq<Entry>, view: seq<nat>): (r: seq<u32>)
    requires forall i :: 0 <= i < |view| ==> view[i] < |entries|
    ensures |r| == |view| && forall i :: 0 <= i < |view| ==> r[i] == entries[view[i]].pid
  {
    seq<u32>(|view|, i requires 0 <= i < |view| => entries[view[i]].pid)
  }

  // The table does not depend on the order of the snapshot's rows

  ghost function Entries(rows: seq<StatsRow>): (r: seq<Entry>)
    ensures |r| == |rows| && forall i :: 0 <= i < |rows| ==> r[i] == RowEntry(rows[i])
  {
    seq(|rows|, i requires 0 <= i < |rows| => RowEntry(rows[i]))
  }

  ghost predicate DistinctPids(rows: seq<StatsRow>) {
    forall i, j :: 0 <= i < j < |rows| ==> rows[i].pid != rows[j].pid
  }

  ghost function Table(rows: seq<StatsRow>, view: seq<nat>): (r: seq<StatsRow>)
    requires InRange(Entries(rows), view)
    ensures |r| == |view| && forall i :: 0 <= i < |view| ==> r[i] == rows[view[i]]
  {
    seq(|view|, i requires 0 <= i < |view| => rows[view[i]])
  }

  /** The view of these rows under this sort and filter: filtered, and in order. */
  ghost predicate IsView(rows: seq<StatsRow>, view: seq<nat>, key: SortKey, dir: SortDir, text: Name,
                         target: FilterTarget) {
    && multiset(view) == multiset(Filtered(Entries(rows), text, target))
    && InRange(Entries(rows), view)
    && SortedView(Entries(rows), view, key, dir)
  }

  ghost predicate StrictlySorted(table: seq<StatsRow>, key: SortKey, dir: SortDir) {
    forall i, j :: 0 <= i < j < |table| ==> Compare(RowEntry(table[i]), RowEntry(table[j]), key, dir) == Less
  }

  lemma TableSorted(rows: seq<StatsRow>, view: seq<nat>, key: SortKey, dir: SortDir)
    requires InRange(Entries(rows), view) && SortedView(Entries(rows), view, key, dir) && DistinctPids(rows)
    ensures StrictlySorted(Table(rows, view), key, dir)
  {
    var entries, table := Entries(rows), Table(rows, view);
    forall i, j | 0 <= i < j < |table| ensures Compare(RowEntry(table[i]), RowEntry(table[j]), key, dir) == Less {
      assert Precedes(entries, view[i], view[j], key, dir);
      CompareOrder(entries[view[i]], entries[view[j]], entries[view[j]], key, dir);
    }
  }

  lemma TableMember(rows: seq<StatsRow>, view: seq<nat>, text: Name, target: FilterTarget, r: StatsRow)
    requires multiset(view) == multiset(Filtered(Entries(rows), text, target)) && InRange(Entries(rows), view)
    ensures r in Table(rows, view) <==> r in rows && Matches(RowEntry(r), text, target)
  {
    var table, chosen := Table(rows, view), Filtered(Entries(rows), text, target);
    if r in table {
      var i :| 0 <= i < |table| && table[i] == r;
      assert view[i] in multiset(view);
      assert view[i] in chosen;
    }
    if r in rows && Matches(RowEntry(r), text, target) {
      var k :| 0 <= k < |rows| && rows[k] == r;
      assert k in chosen;
      assert k in multiset(chosen);
      var i :| 0 <= i < |view| && view[i] == k;
      assert table[i] == r;
    }
  }

  /** With distinct PIDs the table is strictly sorted and shows exactly the rows that pass the filter, once each. */
  lemma TableShowsMatches(rows: seq<StatsRow>, view: seq<nat>, key: SortKey, dir: SortDir, text: Name,
                          target: FilterTarget)
    requires IsView(rows, view, key, dir, text, target) && DistinctPids(rows)
    ensures StrictlySorted(Table(rows, view), key, dir)
    ensures forall r :: r in Table(rows, view) <==> r in rows && Wanted(r.pid, r.name, text, target)
  {
    TableSorted(rows, view, key, dir);
    forall r ensures r in Table(rows, view) <==> r in rows && Wanted(r.pid, r.name, text, target) {
      TableMember(rows, view, text, target, r);
      MatchesMeans(RowEntry(r), text, target);
    }
  }

  // What the order means

  /** What a column sorts by, when it is a number. */
  function KeyOf(r: StatsRow, key: SortKey): nat
    requires !key.ByName?
  {
    match key
    case Pid => r.pid
    case Sent => SatAdd(r.tcp.bytes.sent, r.udp.bytes.sent)
    case Recv => SatAdd(r.tcp.bytes.recv, r.udp.bytes.recv)
    case Total => SatAdd(SatAdd(r.tcp.bytes.sent, r.udp.bytes.sent), SatAdd(r.tcp.bytes.recv, r.udp.bytes.recv))
  }

  /** Before in the dictionary: at the first difference the smaller byte, or the end. */
  ghost predicate LexLess(a: seq<byte>, b: seq<byte>) {
    exists k :: 0 <= k <= |a| && k < |b| && a[..k] == b[..k] && (k == |a| || a[k] < b[k])
  }

  lemma {:induction false} CompareIsLex(a: seq<byte>, b: seq<byte>)
    ensures CompareName(a, b) == Less ==> LexLess(a, b)
    ensures CompareName(a, b) == Greater ==> LexLess(b, a)
    ensures CompareName(a, b) == Equal ==> a == b
  {
    if a == [] || b == [] || a[0] != b[0] {
      assert a[..0] == b[..0];
    } else {
      CompareIsLex(a[1..], b[1..]);
      if CompareName(a, b) == Less {
        LexMore(a, b);
      } else if CompareName(a, b) == Greater {
        LexMore(b, a);
      }
      assert a == [a[0]] + a[1..] && b == [b[0]] + b[1..];
    }
  }

  lemma LexMore(a: seq<byte>, b: seq<byte>)
    requires a != [] && b != [] && a[0] == b[0] && LexLess(a[1..], b[1..])
    ensures LexLess(a, b)
  {
    var x, y := a[1..], b[1..];
    var k :| 0 <= k <= |x| && k < |y| && x[..k] == y[..k] && (k == |x| || x[k] < y[k]);
    assert a[..k + 1] == [a[0]] + x[..k] && b[..k + 1] == [b[0]] + y[..k];
  }

  /** One row before another, by the column's value in the direction asked for; never by an equal value. */
  ghost predicate Ahead(a: StatsRow, b: StatsRow, key: SortKey, dir: SortDir) {
    var (x, y) := if dir == Asc then (a, b) else (b, a);
    if key.ByName? then LexLess(x.name, y.name) else KeyOf(x, key) < KeyOf(y, key)
  }

  ghost predicate SameKey(a: StatsRow, b: StatsRow, key: SortKey) {
    if key.ByName? then a.name == b.name else KeyOf(a, key) == KeyOf(b, key)
  }

  /**
   The order of a table in plain words: an earlier row has the smaller value in its column (the larger,
   when descending), or the same value and the smaller PID, whatever the direction.
   */
  lemma TableInOrder(table: seq<StatsRow>, key: SortKey, dir: SortDir, i: nat, j: nat)
    requires StrictlySorted(table, key, dir) && i < j < |table|
    ensures Ahead(table[i], table[j], key, dir) || (SameKey(table[i], table[j], key) && table[i].pid < table[j].pid)
  {
    CompareIsLex(table[i].name, table[j].name);
  }

  /** Two strictly sorted tables of the same rows are the same table. */
  lemma {:induction false} SortedUnique(a: seq<StatsRow>, b: seq<StatsRow>, key: SortKey, dir: SortDir)
    requires StrictlySorted(a, key, dir) && StrictlySorted(b, key, dir)
    requires forall r :: r in a <==> r in b
    ensures a == b
  {
    SameEmpty(a, b);
    if a != [] {
      assert a[0] in b && b[0] in a;
      var i :| 0 <= i < |b| && b[i] == a[0];
      var j :| 0 <= j < |a| && a[j] == b[0];
      CompareOrder(RowEntry(a[0]), RowEntry(b[0]), RowEntry(a[0]), key, dir);
      assert a[0] == b[0];
      forall r ensures r in a[1..] <==> r in b[1..] {
        TailMember(a, r, key, dir);
        TailMember(b, r, key, dir);
      }
      SortedUnique(a[1..], b[1..], key, dir);
      assert a == [a[0]] + a[1..] && b == [b[0]] + b[1..];
    }
  }

  lemma SameEmpty(a: seq<StatsRow>, b: seq<StatsRow>)
    requires forall r :: r in a <==> r in b
    ensures a == [] <==> b == []
  {
    if a != [] {
      assert a[0] in a;
    }
    if b != [] {
      assert b[0] in b;
    }
  }

  lemma TailMember(a: seq<StatsRow>, r: StatsRow, key: SortKey, dir: SortDir)
    requires a != [] && StrictlySorted(a, key, dir)
    ensures r in a[1..] <==> r in a && r != a[0]
  {
    CompareOrder(RowEntry(a[0]), RowEntry(a[0]), RowEntry(a[0]), key, dir);
    if r in a && r != a[0] {
      var i :| 0 <= i < |a| && a[i] == r;
      assert a[1..][i - 1] == r;
    }
    if r in a[1..] {
      var i :| 0 <= i < |a[1..]| && a[1..][i] == r;
      assert a[i + 1] == r;
    }
  }

  lemma DistinctInAnyOrder(rows: seq<StatsRow>, other: seq<StatsRow>)
    requires multiset(rows) == multiset(other) && DistinctPids(rows)
    ensures DistinctPids(other)
  {
    forall i, j | 0 <= i < j < |other| ensures other[i].pid != other[j].pid {
      assert other[i] in multiset(rows) && other[j] in multiset(rows);
      if other[i] == other[j] {
        assert other == other[..i] + [other[i]] + other[i + 1..j] + [other[j]] + other[j + 1..];
        assert multiset(other)[other[i]] >= 2;
        OnceAmongDistinct(rows, other[i]);
      }
    }
  }

  lemma OnceAmongDistinct(rows: seq<StatsRow>, r: StatsRow)
    requires DistinctPids(rows)
    ensures multiset(rows)[r] <= 1
  {
    if r in rows {
      var i :| 0 <= i < |rows| && rows[i] == r;
      assert rows == rows[..i] + [r] + rows[i + 1..];
      assert r !in rows[..i] && r !in rows[i + 1..];
    }
  }

  /**
   The table is canonical: the same rows in any order, such as `swap_remove` leaves them in, give the
   same table under the same sort and filter.
   */
  lemma ViewIsCanonical(rows: seq<StatsRow>, other: seq<StatsRow>, view: seq<nat>, view': seq<nat>,
                        key: SortKey, dir: SortDir, text: Name, target: FilterTarget)
    requires multiset(rows) == multiset(other) && DistinctPids(rows)
    requires IsView(rows, view, key, dir, text, target) && IsView(other, view', key, dir, text, target)
    ensures Table(rows, view) == Table(other, view')
  {
    DistinctInAnyOrder(rows, other);
    TableShowsMatches(rows, view, key, dir, text, target);
    TableShowsMatches(other, view', key, dir, text, target);
    forall r ensures r in rows <==> r in other {
      assert r in multiset(rows) <==> r in multiset(other);
    }
    SortedUnique(Table(rows, view), Table(other, view'), key, dir);
  }

  // The dead processes' table

  ghost function DeadEntries(dead: seq<ProcInfo>): (r: seq<Entry>)
    ensures |r| == |dead| && forall i :: 0 <= i < |dead| ==> r[i] == DeadEntry(dead[i])
  {
    seq(|dead|, i requires 0 <= i < |dead| => DeadEntry(dead[i]))
  }

  function DeadKey(p: ProcInfo, key: SortKey): nat
    requires !key.ByName?
  {
    match key
    case Pid => p.pid
    case Sent => SatAdd(p.tcpCum.sent, p.udpCum.sent)
    case Recv => SatAdd(p.tcpCum.recv, p.udpCum.recv)
    case Total => SatAdd(SatAdd(p.tcpCum.sent, p.udpCum.sent), SatAdd(p.tcpCum.recv, p.udpCum.recv))
  }

  ghost predicate DeadAhead(a: ProcInfo, b: ProcInfo, key: SortKey, dir: SortDir) {
    var (x, y) := if dir == Asc then (a, b) else (b, a);
    if key.ByName? then LexLess(x.name, y.name) else DeadKey(x, key) < DeadKey(y, key)
  }

  ghost predicate DeadSameKey(a: ProcInfo, b: ProcInfo, key: SortKey) {
    if key.ByName? then a.name == b.name else DeadKey(a, key) == DeadKey(b, key)
  }

  /**
   Dead processes are ordered by the same columns of their totals, then by PID; entries of one PID that are
   equal in the column keep the order of the snapshot, the earlier death first.
   */
  lemma DeadInOrder(dead: seq<ProcInfo>, view: seq<nat>, key: SortKey, dir: SortDir, i: nat, j: nat)
    requires InRange(DeadEntries(dead), view) && SortedView(DeadEntries(dead), view, key, dir) && i < j < |view|
    ensures var a, b := dead[view[i]], dead[view[j]];
            || DeadAhead(a, b, key, dir)
            || (DeadSameKey(a, b, key) && (a.pid < b.pid || (a.pid == b.pid && view[i] < view[j])))
  {
    assert Precedes(DeadEntries(dead), view[i], view[j], key, dir);
    CompareIsLex(dead[view[i]].name, dead[view[j]].name);
  }

  /** The view holds the entries that the filter wants, once each, and no others. */
  ghost predicate ShowsExactly(entries: seq<Entry>, view: seq<nat>, text: Name, target: FilterTarget) {
    && (forall k: nat :: k in view <==> k < |entries| && Wanted(entries[k].pid, entries[k].name, text, target))
    && (forall k: nat :: multiset(view)[k] <= 1)
  }

  lemma ViewShowsWanted(entries: seq<Entry>, view: seq<nat>, text: Name, target: FilterTarget)
    requires multiset(view) == multiset(Filtered(entries, text, target))
    ensures ShowsExactly(entries, view, text, target)
  {
    forall k: nat {
      ViewShowsOne(entries, view, text, target, k);
    }
  }

  lemma ViewShowsOne(entries: seq<Entry>, view: seq<nat>, text: Name, target: FilterTarget, k: nat)
    requires multiset(view) == multiset(Filtered(entries, text, target))
    ensures k in view <==> k < |entries| && Wanted(entries[k].pid, entries[k].name, text, target)
    ensures multiset(view)[k] <= 1
  {
    var chosen := Filtered(entries, text, target);
    assert k in view <==> k in multiset(view);
    assert k in chosen <==> k in multiset(chosen);
    if k < |entries| {
      MatchesMeans(entries[k], text, target);
    }
    OnceAscending(chosen, k);
  }

  lemma OnceAscending(s: seq<nat>, k: nat)
    requires Ascending(s)
    ensures multiset(s)[k] <= 1
  {
    if k in s {
      var i :| 0 <= i < |s| && s[i] == k;
      assert s == s[..i] + [k] + s[i + 1..];
      assert k !in s[..i] && k !in s[i + 1..];
    }
  }
}
