/**
  The two readers of a sysfs thermal tree: the C one
  (src/daemon/thermal_reader.c) and the Python one (src/python/msp/thermal.py).
  Both see the same directory; they only list it in different orders.
 */
module ThermalReader {
  import opened Wrappers
  import opened Text
  import opened Telemetry

  // ---------------------------------------------------------------------
  // Searching and cleaning
  // ---------------------------------------------------------------------

  /** The hand-written search: true iff the folded needle is a substring of the folded haystack. */
  method ContainsCi(haystack: string, needle: string) returns (found: bool)
    ensures found <==> Contains(Lower(needle), Lower(haystack))
  {
    ghost var n, h := Lower(needle), Lower(haystack);
    if needle == "" {
      assert OccursAt(n, h, 0);
      return true;
    }
    if |needle| > |haystack| {
      return false;
    }
    var i := 0;
    while i + |needle| <= |haystack|
      invariant 0 <= i <= |haystack|
      invariant forall k: nat | k < i :: !OccursAt(n, h, k)
    {
      var j := 0;
      while j < |needle|
        invariant 0 <= j <= |needle|
        invariant forall k | 0 <= k < j :: h[i + k] == n[k]
      {
        if ToLower(haystack[i + j]) != ToLower(needle[j]) {
          break;
        }
        j := j + 1;
      }
      if j == |needle| {
        assert OccursAt(n, h, i);
        return true;
      }
      assert h[i..i + |needle|][j] != n[j];
      i := i + 1;
    }
    return false;
  }

  /** What fgets puts into a buffer that has room for n characters. */
  function FirstLine(s: string, n: nat): string {
    if n == 0 || s == "" then ""
    else if s[0] == '\n' then "\n"
    else [s[0]] + FirstLine(s[1..], n - 1)
  }

  function TrimLineEnd(s: string): string {
    if s != "" && (s[|s| - 1] == '\n' || s[|s| - 1] == '\r') then TrimLineEnd(s[..|s| - 1]) else s
  }

  /** fgets takes as much as fits, but nothing after the first line end. */
  lemma {:induction false} FirstLineParts(s: string, n: nat)
    ensures FirstLine(s, n) <= s && |FirstLine(s, n)| <= n
    ensures forall i | 0 <= i < |FirstLine(s, n)| - 1 :: s[i] != '\n'
    ensures |FirstLine(s, n)| < n ==>
      FirstLine(s, n) == s || (FirstLine(s, n) != "" && s[|FirstLine(s, n)| - 1] == '\n')
  {
    if n > 0 && s != "" && s[0] != '\n' {
      FirstLineParts(s[1..], n - 1);
    }
  }

  predicate IsLineEnd(c: char) { c == '\n' || c == '\r' }

  /** Line ends are removed at the end, all of them, and nothing else. */
  lemma {:induction false} TrimLineEndParts(s: string)
    ensures TrimLineEnd(s) <= s && forall i | |TrimLineEnd(s)| <= i < |s| :: IsLineEnd(s[i])
    ensures TrimLineEnd(s) != "" ==> !IsLineEnd(TrimLineEnd(s)[|TrimLineEnd(s)| - 1])
  {
    if s != "" && IsLineEnd(s[|s| - 1]) {
      TrimLineEndParts(s[..|s| - 1]);
    }
  }

  // ---------------------------------------------------------------------
  // The directory
  // ---------------------------------------------------------------------

  /** A "temp" file: it may be missing, or there without an integer that can be read from it. */
  datatype TempFile = Missing | Unreadable | Millidegrees(value: int)

  /** One entry: its name, the contents of its "type" file if that can be read, and its "temp" file. */
  datatype Entry = Entry(name: string, typeFile: Option<string>, temp: TempFile)

  const PREFIX: string := "thermal_zone"
  const ZONE_DIR_MAX: nat := 300
  const TYPE_MAX: nat := 64

  datatype Aggregate = Max | Mean

  predicate HasPrefix(name: string) { PREFIX <= name }

  /** The type as the C reader sees it: first line, without its line end; "unknown" if nothing was read. */
  function CType(typeFile: Option<string>): string {
    match typeFile
    case None => "unknown"
    case Some(text) => if text == "" then "unknown" else TrimLineEnd(FirstLine(text, TYPE_MAX - 1))
  }

  /** Of a longer type the C reader sees the first 63 characters. */
  lemma LongTypesAreCut(t: string)
    requires |t| > 63 && forall i | 0 <= i < |t| :: !IsLineEnd(t[i])
    ensures CType(Some(t)) == t[..63]
  {
    FirstLineParts(t, 63);
    TrimLineEndParts(FirstLine(t, 63));
  }

  /** The type as the Python reader sees it. */
  function PyType(typeFile: Option<string>): string {
    match typeFile
    case None => "unknown"
    case Some(text) => Strip(text)
  }

  predicate CAdmits(baseLength: nat, e: Entry) {
    HasPrefix(e.name) && baseLength + 1 + |e.name| < ZONE_DIR_MAX
  }

  /** The C reader admits exactly the zones whose path fits its buffer together with the terminator. */
  lemma AdmittedPathsFit(base: string, e: Entry)
    ensures CAdmits(|base|, e) <==> HasPrefix(e.name) && |base + "/" + e.name| + 1 <= 300
  {
  }

  predicate PyAdmits(e: Entry) {
    HasPrefix(e.name) && AllDigits(e.name[|PREFIX|..])
  }

  predicate Readable(e: Entry) { e.temp.Millidegrees? }

  predicate CCounts(baseLength: nat, filter: string, e: Entry) {
    CAdmits(baseLength, e) && Contains(Lower(filter), Lower(CType(e.typeFile))) && Readable(e)
  }

  /** The zones that the Python reader keeps at construction: their "temp" file must exist, readable or not. */
  predicate PyKeeps(filter: Option<string>, e: Entry) {
    !e.temp.Missing? && PyAdmits(e) && (filter.Some? ==> Contains(Lower(filter.value), Lower(PyType(e.typeFile))))
  }

  /** What is kept exists, has an index, and passes the filter if there is one. */
  lemma KeptZones(filter: Option<string>, e: Entry)
    ensures PyKeeps(filter, e) ==> e.temp != Missing && |e.name| > 12 && e.name[..12] == "thermal_zone"
    ensures PyKeeps(None, e) <==> e.temp != Missing && PyAdmits(e)
  {
  }

  predicate PyCounts(filter: Option<string>, e: Entry) {
    PyKeeps(filter, e) && Readable(e)
  }

  function CCounter(baseLength: nat, filter: string): Entry -> bool { e => CCounts(baseLength, filter, e) }

  function PyKeeper(filter: Option<string>): Entry -> bool { e => PyKeeps(filter, e) }

  function PyCounter(filter: Option<string>): Entry -> bool { e => PyCounts(filter, e) }

  // ---------------------------------------------------------------------
  // Aggregation
  // ---------------------------------------------------------------------

  function Celsius(e: Entry): real {
    if Readable(e) then e.temp.value as real / 1000.0 else 0.0
  }

  /** The entries that count, in listing order. */
  function Selected(entries: seq<Entry>, counts: Entry -> bool): (s: seq<Entry>)
    ensures forall e | e in s :: e in entries && counts(e)
  {
    if entries == [] then []
    else
      var rest := Selected(entries[..|entries| - 1], counts);
      if counts(entries[|entries| - 1]) then rest + [entries[|entries| - 1]] else rest
  }

  lemma {:induction false} SelectedCongruent(s: seq<Entry>, p: Entry -> bool, q: Entry -> bool)
    requires forall e | e in s :: p(e) == q(e)
    ensures Selected(s, p) == Selected(s, q)
  {
    if s != [] {
      SelectedCongruent(s[..|s| - 1], p, q);
    }
  }

  lemma {:induction false} NothingSelected(s: seq<Entry>, p: Entry -> bool)
    requires forall e | e in s :: !p(e)
    ensures Selected(s, p) == []
  {
    if s != [] {
      NothingSelected(s[..|s| - 1], p);
    }
  }

  lemma {:induction false} SelectedTwice(s: seq<Entry>, p: Entry -> bool, q: Entry -> bool, both: Entry -> bool)
    requires forall e | e in s :: both(e) == (p(e) && q(e))
    ensures Selected(Selected(s, p), q) == Selected(s, both)
  {
    if s != [] {
      SelectedTwice(s[..|s| - 1], p, q, both);
      var rest, last := Selected(s[..|s| - 1], p), s[|s| - 1];
      assert (rest + [last])[..|rest|] == rest;
    }
  }

  function Total(entries: seq<Entry>): real {
    if entries == [] then 0.0 else Total(entries[..|entries| - 1]) + Celsius(entries[|entries| - 1])
  }

  ghost predicate IsHottest(entries: seq<Entry>, c: real) {
    && (exists e | e in entries :: Celsius(e) == c)
    && (forall e | e in entries :: Celsius(e) <= c)
  }

  /** The one right answer for a non-empty list of readable zones; no answer for an empty one. */
  ghost predicate IsReading(zones: seq<Entry>, aggregate: Aggregate, r: Option<real>) {
    match r
    case None => zones == []
    case Some(c) => zones != [] && if aggregate.Mean? then c == Total(zones) / |zones| as real else IsHottest(zones, c)
  }

  lemma ReadingUnique(zones: seq<Entry>, aggregate: Aggregate, r: Option<real>, r': Option<real>)
    requires IsReading(zones, aggregate, r) && IsReading(zones, aggregate, r')
    ensures r == r'
  {
  }

  lemma SelectedStep(entries: seq<Entry>, i: nat, counts: Entry -> bool)
    requires i < |entries|
    ensures Selected(entries[..i + 1], counts) ==
      if counts(entries[i]) then Selected(entries[..i], counts) + [entries[i]] else Selected(entries[..i], counts)
  {
    assert entries[..i + 1][..i] == entries[..i];
  }

  function Hotter(max: Option<real>, c: real): Option<real> {
    if max.None? || c > max.value then Some(c) else max
  }

  /** The three accumulators of a pass over the zones. */
  datatype Pass = Pass(sum: real, max: Option<real>, count: nat) {
    function Include(c: real): Pass {
      Pass(sum + c, Hotter(max, c), count + 1)
    }

    /** How both readers end: no reading for no zone, otherwise the mean or the maximum. */
    function Report(aggregate: Aggregate): Option<real> {
      if count == 0 || max.None? then None
      else Some(if aggregate == Mean then sum / count as real else max.value)
    }
  }

  function PassOver(zones: seq<Entry>): Pass {
    if zones == [] then Pass(0.0, None, 0)
    else PassOver(zones[..|zones| - 1]).Include(Celsius(zones[|zones| - 1]))
  }

  lemma PassOverOneMore(zones: seq<Entry>, e: Entry)
    ensures PassOver(zones + [e]) == PassOver(zones).Include(Celsius(e))
  {
    assert (zones + [e])[..|zones|] == zones;
  }

  lemma {:induction false} PassCounts(zones: seq<Entry>)
    ensures PassOver(zones).count == |zones| && PassOver(zones).sum == Total(zones)
  {
    if zones != [] {
      PassCounts(zones[..|zones| - 1]);
    }
  }

  ghost predicate IsMaxOf(zones: seq<Entry>, max: Option<real>) {
    if zones == [] then max.None? else max.Some? && IsHottest(zones, max.value)
  }

  lemma HotterStep(zones: seq<Entry>, e: Entry, max: Option<real>)
    requires IsMaxOf(zones, max)
    ensures IsMaxOf(zones + [e], Hotter(max, Celsius(e)))
  {
    assert e in zones + [e];
    if max.Some? {
      var w :| w in zones && Celsius(w) == max.value;
      assert w in zones + [e];
    }
  }

  lemma {:induction false} PassFindsHottest(zones: seq<Entry>)
    ensures IsMaxOf(zones, PassOver(zones).max)
  {
    if zones != [] {
      var front, last := zones[..|zones| - 1], zones[|zones| - 1];
      PassFindsHottest(front);
      HotterStep(front, last, PassOver(front).max);
      assert zones == front + [last];
    }
  }

  /** What the accumulators report is the right answer for the zones they were fed. */
  lemma ReportIsReading(zones: seq<Entry>, aggregate: Aggregate)
    ensures IsReading(zones, aggregate, PassOver(zones).Report(aggregate))
  {
    PassCounts(zones);
    PassFindsHottest(zones);
  }

  /** The tests on one directory entry; the result is its temperature if it counts. */
  method ReadZone(entry: Entry, baseLength: nat, filter: string) returns (c: Option<real>)
    ensures c.Some? <==> CCounts(baseLength, filter, entry)
    ensures c.Some? ==> c.value == Celsius(entry)
  {
    if !HasPrefix(entry.name) {
      return None;
    }
    if baseLength + 1 + |entry.name| >= ZONE_DIR_MAX {
      return None;
    }
    var matches := ContainsCi(CType(entry.typeFile), filter);
    if !matches {
      return None;
    }
    if !Readable(entry) {
      return None;
    }
    return Some(entry.temp.value as real / 1000.0);
  }

  /** The C reader's single pass. */
  method Read(entries: seq<Entry>, baseLength: nat, filter: string, aggregate: Aggregate) returns (r: Option<real>)
    ensures IsReading(Selected(entries, CCounter(baseLength, filter)), aggregate, r)
  {
    var pass := Pass(0.0, None, 0);
    ghost var counts := CCounter(baseLength, filter);
    ghost var done: seq<Entry> := [];
    var i := 0;
    while i < |entries|
      invariant 0 <= i <= |entries|
      invariant done == Selected(entries[..i], counts)
      invariant pass == PassOver(done)
    {
      SelectedStep(entries, i, counts);
      var c := ReadZone(entries[i], baseLength, filter);
      if c.Some? {
        PassOverOneMore(done, entries[i]);
        done := done + [entries[i]];
        pass := pass.Include(c.value);
      }
      i := i + 1;
    }
    assert entries[..i] == entries;
    ReportIsReading(done, aggregate);
    r := pass.Report(aggregate);
  }

  /** The tests on one directory entry at construction. */
  method KeepZone(entry: Entry, filter: Option<string>) returns (keep: bool)
    ensures keep <==> PyKeeps(filter, entry)
  {
    if !HasPrefix(entry.name) {
      return false;
    }
    if entry.temp.Missing? {
      return false;
    }
    if !AllDigits(entry.name[|PREFIX|..]) {
      return false;
    }
    if filter.None? {
      return true;
    }
    keep := ContainsCi(PyType(entry.typeFile), filter.value);
  }

  /** The zones the Python reader keeps when it is constructed, in the order of the sorted listing. */
  method Discover(entries: seq<Entry>, filter: Option<string>) returns (zones: seq<Entry>)
    ensures zones == Selected(entries, PyKeeper(filter))
  {
    zones := [];
    var i := 0;
    while i < |entries|
      invariant 0 <= i <= |entries|
      invariant zones == Selected(entries[..i], PyKeeper(filter))
    {
      SelectedStep(entries, i, PyKeeper(filter));
      var keep := KeepZone(entries[i], filter);
      if keep {
        zones := zones + [entries[i]];
      }
      i := i + 1;
    }
    assert entries[..i] == entries;
  }

  predicate AreReadings(readings: seq<real>, zones: seq<Entry>) {
    |readings| == |zones| && forall k | 0 <= k < |zones| :: readings[k] == Celsius(zones[k])
  }

  /** max(readings) or sum(readings) / len(readings). */
  method Combine(readings: seq<real>, aggregate: Aggregate, ghost zones: seq<Entry>) returns (r: Option<real>)
    requires AreReadings(readings, zones)
    ensures IsReading(zones, aggregate, r)
  {
    var pass := Pass(0.0, None, 0);
    var j := 0;
    while j < |readings|
      invariant 0 <= j <= |readings|
      invariant pass == PassOver(zones[..j])
    {
      assert zones[..j + 1] == zones[..j] + [zones[j]];
      PassOverOneMore(zones[..j], zones[j]);
      pass := pass.Include(readings[j]);
      j := j + 1;
    }
    assert zones[..j] == zones;
    ReportIsReading(zones, aggregate);
    r := pass.Report(aggregate);
  }

  function ReadableFilter(): Entry -> bool { e => Readable(e) }

  /** The loop over the zones: those that cannot be read now are skipped. */
  method Collect(zones: seq<Entry>) returns (readings: seq<real>)
    ensures AreReadings(readings, Selected(zones, ReadableFilter()))
  {
    readings := [];
    for i := 0 to |zones|
      invariant AreReadings(readings, Selected(zones[..i], ReadableFilter()))
    {
      SelectedStep(zones, i, ReadableFilter());
      if Readable(zones[i]) {
        readings := readings + [zones[i].temp.value as real / 1000.0];
      }
    }
    assert zones[..|zones|] == zones;
  }

  /** One call of the constructed reader. */
  method PyRead(entries: seq<Entry>, filter: Option<string>, aggregate: Aggregate) returns (r: Option<real>)
    ensures IsReading(Selected(entries, PyCounter(filter)), aggregate, r)
  {
    var zones := Discover(entries, filter);
    var readings := Collect(zones);
    SelectedTwice(entries, PyKeeper(filter), ReadableFilter(), PyCounter(filter));
    r := Combine(readings, aggregate, Selected(zones, ReadableFilter()));
  }

  // ---------------------------------------------------------------------
  // Independence of the listing order
  // ---------------------------------------------------------------------

  /** Selection keeps the number of times each counting entry is listed. */
  lemma {:induction false} SelectedMultiset(s: seq<Entry>, counts: Entry -> bool, e: Entry)
    ensures multiset(Selected(s, counts))[e] == if counts(e) then multiset(s)[e] else 0
  {
    if s != [] {
      SelectedMultiset(s[..|s| - 1], counts, e);
      assert s == s[..|s| - 1] + [s[|s| - 1]];
    }
  }

  function Dropped(t: seq<Entry>, k: nat): seq<Entry>
    requires k < |t|
  {
    t[..k] + t[k + 1..]
  }

  lemma DroppedMultiset(t: seq<Entry>, k: nat)
    requires k < |t|
    ensures multiset(Dropped(t, k)) == multiset(t) - multiset{t[k]}
  {
    assert t == t[..k] + [t[k]] + t[k + 1..];
  }

  lemma DroppedLast(t: seq<Entry>, k: nat)
    requires k < |t| - 1
    ensures Dropped(t, k) != [] && Dropped(t, k)[|t| - 2] == t[|t| - 1]
    ensures Dropped(t, k)[..|t| - 2] == Dropped(t[..|t| - 1], k)
  {
  }

  lemma {:induction false} DroppedTotal(t: seq<Entry>, k: nat)
    requires k < |t|
    ensures Total(t) == Total(Dropped(t, k)) + Celsius(t[k])
  {
    var last := |t| - 1;
    if k == last {
      assert Dropped(t, k) == t[..last];
    } else {
      DroppedTotal(t[..last], k);
      DroppedLast(t, k);
    }
  }

  lemma IndexIn(s: seq<Entry>, t: seq<Entry>, i: nat) returns (k: nat)
    requires multiset(s) == multiset(t) && i < |s|
    ensures k < |t| && t[k] == s[i]
  {
    assert s[i] in multiset(t);
    k :| 0 <= k < |t| && t[k] == s[i];
  }

  lemma {:induction false} TotalOfPermutation(s: seq<Entry>, t: seq<Entry>)
    requires multiset(s) == multiset(t)
    ensures Total(s) == Total(t) && |s| == |t|
    decreases |s|
  {
    assert |multiset(s)| == |s| && |multiset(t)| == |t|;
    if s != [] {
      var k := IndexIn(s, t, 0);
      DroppedMultiset(s, 0);
      DroppedMultiset(t, k);
      TotalOfPermutation(Dropped(s, 0), Dropped(t, k));
      DroppedTotal(s, 0);
      DroppedTotal(t, k);
    }
  }

  lemma SameMembers(s: seq<Entry>, t: seq<Entry>, e: Entry)
    requires multiset(s) == multiset(t)
    ensures e in s <==> e in t
  {
    assert e in s <==> e in multiset(s);
    assert e in t <==> e in multiset(t);
  }

  /** A reading does not depend on the order of the zones. */
  lemma ReadingOfPermutation(s: seq<Entry>, t: seq<Entry>, aggregate: Aggregate, r: Option<real>)
    requires multiset(s) == multiset(t) && IsReading(s, aggregate, r)
    ensures IsReading(t, aggregate, r)
  {
    TotalOfPermutation(s, t);
    forall e ensures e in s <==> e in t {
      SameMembers(s, t, e);
    }
  }

  /** Nor does it depend on the order of the directory listing. */
  lemma ListingOrderIrrelevant(s: seq<Entry>, t: seq<Entry>, counts: Entry -> bool,
                               aggregate: Aggregate, r: Option<real>)
    requires multiset(s) == multiset(t)
    requires IsReading(Selected(s, counts), aggregate, r)
    ensures IsReading(Selected(t, counts), aggregate, r)
  {
    forall e ensures multiset(Selected(s, counts))[e] == multiset(Selected(t, counts))[e] {
      SelectedMultiset(s, counts, e);
      SelectedMultiset(t, counts, e);
    }
    assert multiset(Selected(s, counts)) == multiset(Selected(t, counts));
    ReadingOfPermutation(Selected(s, counts), Selected(t, counts), aggregate, r);
  }

  // ---------------------------------------------------------------------
  // Agreement of the two readers
  // ---------------------------------------------------------------------

  /** Both readers clean the type alike, and both take the directory's name. */
  predicate Compatible(baseLength: nat, e: Entry) {
    && CAdmits(baseLength, e) == PyAdmits(e)
    && (CAdmits(baseLength, e) ==> Lower(CType(e.typeFile)) == Lower(PyType(e.typeFile)))
  }

  /** A readable entry counts the same way under every filter exactly if it is compatible. */
  lemma CompatibleIsExact(baseLength: nat, e: Entry)
    requires Readable(e)
    ensures Compatible(baseLength, e) <==> forall f: string :: CCounts(baseLength, f, e) == PyCounts(Some(f), e)
  {
    if forall f: string :: CCounts(baseLength, f, e) == PyCounts(Some(f), e) {
      var c, p := Lower(CType(e.typeFile)), Lower(PyType(e.typeFile));
      assert OccursAt(Lower(""), c, 0) && OccursAt(Lower(""), p, 0);
      assert CCounts(baseLength, "", e) == PyCounts(Some(""), e);
      if CAdmits(baseLength, e) {
        LowerTwice(CType(e.typeFile));
        LowerTwice(PyType(e.typeFile));
        ContainsItself(c);
        ContainsItself(p);
        assert CCounts(baseLength, c, e) == PyCounts(Some(c), e);
        assert CCounts(baseLength, p, e) == PyCounts(Some(p), e);
        ContainsEachOther(c, p);
      }
    }
  }

  /** A type file that the kernel writes: one short line without surrounding space, with or without its newline. */
  ghost predicate PlainType(typeFile: Option<string>) {
    exists t: string ::
      && 0 < |t| < TYPE_MAX - 1
      && !IsSpace(t[0]) && !IsSpace(t[|t| - 1])
      && (forall i | 0 <= i < |t| :: t[i] != '\n')
      && (typeFile == Some(t) || typeFile == Some(t + "\n"))
  }

  lemma {:induction false} FirstLineOfPlain(t: string, tail: string, n: nat)
    requires |t| < n && (tail == "" || tail == "\n") && forall i | 0 <= i < |t| :: t[i] != '\n'
    ensures FirstLine(t + tail, n) == t + tail
  {
    if t == "" {
      assert t + tail == tail;
    } else {
      FirstLineOfPlain(t[1..], tail, n - 1);
      assert (t + tail)[1..] == t[1..] + tail;
    }
  }

  lemma PlainTypesAgree(t: string, tail: string)
    requires 0 < |t| < TYPE_MAX - 1 && !IsSpace(t[0]) && !IsSpace(t[|t| - 1])
    requires (forall i | 0 <= i < |t| :: t[i] != '\n') && (tail == "" || tail == "\n")
    ensures CType(Some(t + tail)) == t == PyType(Some(t + tail))
  {
    FirstLineOfPlain(t, tail, TYPE_MAX - 1);
    assert TrimLineEnd(t) == t && TrimRight(t) == t;
    if tail == "" {
      assert t + tail == t;
    } else {
      assert (t + tail)[..|t|] == t;
    }
    assert TrimLineEnd(t + tail) == t && TrimRight(t + tail) == t;
  }

  /** On plain zones the two readers see the same type. */
  lemma PlainIsCompatible(baseLength: nat, e: Entry)
    requires PlainType(e.typeFile)
    requires CAdmits(baseLength, e) == PyAdmits(e)
    ensures Compatible(baseLength, e)
  {
    var t: string :|
      && 0 < |t| < TYPE_MAX - 1
      && !IsSpace(t[0]) && !IsSpace(t[|t| - 1])
      && (forall i | 0 <= i < |t| :: t[i] != '\n')
      && (e.typeFile == Some(t) || e.typeFile == Some(t + "\n"));
    assert t + "" == t;
    PlainTypesAgree(t, "");
    PlainTypesAgree(t, "\n");
  }

  /**
    On directories whose readable entries are compatible the two readers
    return the same value, or both none, whatever the listing orders are.
   */
  lemma ReadersAgree(cOrder: seq<Entry>, pyOrder: seq<Entry>, baseLength: nat, filter: Option<string>,
                     aggregate: Aggregate, c: Option<real>, py: Option<real>)
    requires multiset(cOrder) == multiset(pyOrder)
    requires forall e | e in cOrder && Readable(e) :: Compatible(baseLength, e)
    requires IsReading(Selected(cOrder, CCounter(baseLength, if filter.Some? then filter.value else "")), aggregate, c)
    requires IsReading(Selected(pyOrder, PyCounter(filter)), aggregate, py)
    ensures c == py
  {
    var cCounts, pyCounts := CCounter(baseLength, if filter.Some? then filter.value else ""), PyCounter(filter);
    forall e | e in cOrder ensures cCounts(e) == pyCounts(e) {
      assert OccursAt(Lower(""), Lower(CType(e.typeFile)), 0);
    }
    SelectedCongruent(cOrder, cCounts, pyCounts);
    ListingOrderIrrelevant(cOrder, pyOrder, pyCounts, aggregate, c);
    ReadingUnique(Selected(pyOrder, pyCounts), aggregate, c, py);
  }

  /**
    The readers do differ in general: an empty type file is "unknown" to C and
    empty to Python, and a directory name without an index is read by C only.
   */
  lemma ReadersCanDisagree()
    ensures
      var e := Entry("thermal_zone0", Some(""), Millidegrees(90000));
      CCounts(18, "unknown", e) && !PyCounts(Some("unknown"), e)
    ensures
      var e := Entry("thermal_zone_gpu", Some("gpu"), Millidegrees(90000));
      CCounts(18, "", e) && !PyCounts(None, e)
  {
    var e := Entry("thermal_zone0", Some(""), Millidegrees(90000));
    assert PREFIX == "thermal_zone0"[..12];
    assert OccursAt(Lower("unknown"), Lower("unknown"), 0);
    var g := Entry("thermal_zone_gpu", Some("gpu"), Millidegrees(90000));
    assert PREFIX == "thermal_zone_gpu"[..12];
    assert OccursAt(Lower(""), Lower(CType(g.typeFile)), 0);
    assert g.name[|PREFIX|..][0] == '_';
  }

  /** A zone whose type cannot be read matches exactly the filters that are part of "unknown", for both readers. */
  lemma UnreadableTypeMatchesIff(baseLength: nat, filter: string, e: Entry)
    requires e.typeFile.None? && Readable(e)
    ensures CCounts(baseLength, filter, e) <==> CAdmits(baseLength, e) && Contains(Lower(filter), "unknown")
    ensures PyCounts(Some(filter), e) <==> PyAdmits(e) && Contains(Lower(filter), "unknown")
  {
    assert Lower("unknown") == "unknown";
  }

  /** So it is not true that such a zone matches no filter but the empty one. */
  lemma UnreadableTypeCanMatch()
    ensures CCounts(18, "unknown", Entry("thermal_zone0", None, Millidegrees(90000)))
  {
    assert PREFIX == "thermal_zone0"[..12];
    assert OccursAt(Lower("unknown"), Lower("unknown"), 0);
  }

  // ---------------------------------------------------------------------
  // The reader as the daemon's telemetry source
  // ---------------------------------------------------------------------

  /** A failed read reports an infinite temperature: it fails hot. */
  function TelemetrySample(r: Option<real>): Sample {
    Sample(if r.Some? then Finite(r.value) else PosInf, 0, false)
  }

  /** A poll at which no matching zone is readable makes a watchdog that reaches it signal. */
  lemma FailsHot(keep: nat -> bool, samples: nat -> Sample, horizon: nat, r: WatchdogRun, k: nat,
                 entries: seq<Entry>, counts: Entry -> bool, aggregate: Aggregate, reading: Option<real>)
    requires IsWatchdogRun(keep, samples, horizon, r)
    requires k < horizon && forall i: nat | i <= k :: keep(i)
    requires IsReading(Selected(entries, counts), aggregate, reading) && samples(k) == TelemetrySample(reading)
    requires forall e | e in entries :: !counts(e)
    ensures r.state.Signalled? && |r.kills| == 1 && r.polls <= k + 1
  {
    NothingSelected(entries, counts);
    assert Violated(samples(k));
    assert k + 1 < r.polls ==> !Violated(samples(k));
    assert r.state.Stopped? ==> !keep(r.polls);
  }

  lemma OneMore(total: real, c: real, n: nat, next: real)
    requires total <= c * n as real && next <= c
    ensures total + next <= c * (n + 1) as real
  {
    assert c * (n + 1) as real == c * n as real + c;
  }

  lemma {:induction false} TotalBounded(zones: seq<Entry>, c: real)
    requires forall e | e in zones :: Celsius(e) <= c
    ensures Total(zones) <= c * |zones| as real
  {
    if zones != [] {
      var n: nat := |zones| - 1;
      TotalBounded(zones[..n], c);
      OneMore(Total(zones[..n]), c, n, Celsius(zones[n]));
    }
  }

  lemma QuotientBounded(total: real, n: real, c: real)
    requires n > 0.0 && total <= c * n
    ensures total / n <= c
  {
    var q := total / n;
    assert q * n == total;
    if q > c {
      assert (q - c) * n > 0.0;
    }
  }

  /** The mean never exceeds the maximum, so a violation under Mean is one under Max. */
  lemma MeanViolationIsMaxViolation(zones: seq<Entry>, mean: Option<real>, max: Option<real>)
    requires IsReading(zones, Mean, mean) && IsReading(zones, Max, max)
    ensures Violated(TelemetrySample(mean)) ==> Violated(TelemetrySample(max))
  {
    if zones != [] {
      TotalBounded(zones, max.value);
      QuotientBounded(Total(zones), |zones| as real, max.value);
    }
  }
}
