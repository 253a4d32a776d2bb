/** The storage engine `FileStorage` as values: what `save()` leaves in the
    file for a given object index and what `reload()` makes of a file. The
    class that holds this state is `Models.FileStorage`.

    `save()` calls `json.dump` once per object on the same open file, with
    nothing written between the maps, so every map lands on one line;
    `reload()` reads the file line by line and gives each line to
    `json.loads`. A file is modelled by its lines, each line by the maps
    dumped onto it and whether a dump stopped part-way through a map. */
module Persistence {
  import opened Results
  import opened PyDict
  import opened Values
  import opened Records
  import Timestamps

  /** One line of the file: the complete maps written onto it, in order,
      and whether an unfinished map follows them. */
  datatype Line = Line(records: seq<Dict<Value>>, torn: bool)

  /** The file at the storage path: absent, or its lines. */
  datatype Store = Missing | Lines(lines: seq<Line>)

  /** The class every record is rebuilt as. */
  const BaseModelKind := "BaseModel"

  /** The index key `<class name>.<id>` that `new()` files a record under:
      the class name, a dot, then `str()` of the id. */
  function Key(kind: string, id: Value): (k: string)
    ensures |kind| < |k| && k[..|kind|] == kind && k[|kind|] == '.'
    ensures k[|kind| + 1..] == StrOf(id)
  {
    kind + "." + StrOf(id)
  }

  /** The file the `'w'`-mode handle leaves behind: empty when nothing was
      written, otherwise a single line. */
  function Written(records: seq<Dict<Value>>, torn: bool): (s: Store)
    ensures s.Lines? && |s.lines| <= 1
    ensures s.lines == [] <==> records == [] && !torn
  {
    if records == [] && !torn then Lines([]) else Lines([Line(records, torn)])
  }

  /** `to_dict()` of a record. */
  function Exported(s: Snapshot): Result<Dict<Value>> {
    Export(s.kind, s.attrs)
  }

  /** `to_dict()` of every record, in the order `values()` yields them. */
  function Exports(view: Dict<Snapshot>): (xs: seq<Result<Dict<Value>>>) {
    seq(|view.keys|, i requires 0 <= i < |view.keys| => Exported(At(view, i)))
  }

  /** A `to_dict()` result `json.dump` writes out in full: no exception, and
      every value is one it can encode. */
  predicate Writable(x: Result<Dict<Value>>) {
    x.Ok? && IsJsonDict(x.value)
  }

  /** A record `save()` writes out in full. */
  predicate Dumpable(s: Snapshot) {
    Writable(Exported(s))
  }

  /** The maps written so far, whether a map was left unfinished, and
      whether an exception stopped the loop. */
  datatype Dump = Dump(records: seq<Dict<Value>>, torn: bool, outcome: Outcome)

  /** One pass of the `save()` loop: a record whose `to_dict()` raises stops
      it before anything of it is written; a record holding a value
      `json.dump` cannot encode stops it with TypeError after part of the
      map was written. */
  function DumpStep(d: Dump, x: Result<Dict<Value>>): Dump {
    if d.outcome.Fail? then d
    else
      match x
      case Err(e) => Dump(d.records, false, Fail(e))
      case Ok(m) =>
        if IsJsonDict(m) then Dump(d.records + [m], false, Pass)
        else Dump(d.records, true, Fail(TypeError))
  }

  /** The `save()` loop after the first `n` of the `to_dict()` results. */
  function DumpPrefix(xs: seq<Result<Dict<Value>>>, n: nat): Dump
    requires n <= |xs|
  {
    if n == 0 then Dump([], false, Pass) else DumpStep(DumpPrefix(xs, n - 1), xs[n - 1])
  }

  /** `save()` in terms of the loop over the `to_dict()` results. */
  lemma FlushByLoop(view: Dict<Snapshot>, xs: seq<Result<Dict<Value>>>, d: Dump)
    requires xs == Exports(view) && d == DumpPrefix(xs, |xs|)
    ensures Flush(view) == (Written(d.records, d.torn), d.outcome)
  {
  }

  /** One more pass of the `save()` loop. */
  lemma DumpPrefixNext(xs: seq<Result<Dict<Value>>>, i: nat, d: Dump)
    requires i < |xs| && d == DumpPrefix(xs, i)
    ensures DumpStep(d, xs[i]) == DumpPrefix(xs, i + 1)
  {
  }

  /** Where the `save()` loop leaves off: at the end, or after raising. */
  lemma DumpPrefixEnd(xs: seq<Result<Dict<Value>>>, i: nat, d: Dump)
    requires i <= |xs| && d == DumpPrefix(xs, i) && (i < |xs| ==> d.outcome.Fail?)
    ensures d == DumpPrefix(xs, |xs|)
  {
    if i < |xs| {
      DumpPrefixStops(xs, i, |xs|);
    }
  }

  /** Once the loop has raised, nothing more is written. */
  lemma {:induction false} DumpPrefixStops(xs: seq<Result<Dict<Value>>>, i: nat, n: nat)
    requires i <= n <= |xs| && DumpPrefix(xs, i).outcome.Fail?
    ensures DumpPrefix(xs, n) == DumpPrefix(xs, i)
  {
    if i < n {
      DumpPrefixStops(xs, i, n - 1);
    }
  }

  /** `save()`: the file it leaves and how it ends. The file always exists
      afterwards and holds at most one line. */
  function Flush(view: Dict<Snapshot>): (r: (Store, Outcome))
    ensures r.0.Lines? && |r.0.lines| <= 1
  {
    var xs := Exports(view);
    var d := DumpPrefix(xs, |xs|);
    (Written(d.records, d.torn), d.outcome)
  }

  /** What the loop has done after `n` results: written the maps in order,
      stopped at the first one it cannot write in full, and raised what
      that one raised: the `to_dict()` exception (nothing of it written) or
      TypeError from `json.dump` (part of it written). */
  ghost predicate Dumped(xs: seq<Result<Dict<Value>>>, n: nat, d: Dump)
    requires n <= |xs|
  {
    && |d.records| <= n
    && (forall i | 0 <= i < |d.records| :: Writable(xs[i]) && d.records[i] == xs[i].value)
    && (d.outcome == Pass <==> forall i | 0 <= i < n :: Writable(xs[i]))
    && (d.outcome == Pass ==> |d.records| == n && !d.torn)
    && (d.outcome.Fail? ==>
          var x := xs[|d.records|];
          && |d.records| < n && !Writable(x)
          && d.torn == x.Ok?
          && d.outcome.error == if x.Ok? then TypeError else x.error)
  }

  lemma DumpedStep(xs: seq<Result<Dict<Value>>>, n: nat, d: Dump)
    requires 0 < n <= |xs| && Dumped(xs, n - 1, d)
    ensures Dumped(xs, n, DumpStep(d, xs[n - 1]))
  {
    if d.outcome == Pass {
      assert |d.records| == n - 1;
      if Writable(xs[n - 1]) {
        var r := d.records + [xs[n - 1].value];
        assert forall i | 0 <= i < n - 1 :: r[i] == d.records[i];
      }
    } else {
      assert !Writable(xs[|d.records|]);
    }
  }

  lemma {:induction false} DumpPrefixSpec(xs: seq<Result<Dict<Value>>>, n: nat)
    requires n <= |xs|
    ensures Dumped(xs, n, DumpPrefix(xs, n))
  {
    if n > 0 {
      DumpPrefixSpec(xs, n - 1);
      DumpedStep(xs, n, DumpPrefix(xs, n - 1));
    }
  }

  /** The file the loop leaves for results `xs`: nothing when there are
      none, otherwise one line with the maps in order up to the first one
      it cannot write in full. */
  lemma WrittenSpec(xs: seq<Result<Dict<Value>>>)
    ensures
      var d := DumpPrefix(xs, |xs|);
      var file := Written(d.records, d.torn);
      && (d.outcome == Pass <==> forall i | 0 <= i < |xs| :: Writable(xs[i]))
      && (file.lines != [] ==>
            var line := file.lines[0];
            && |line.records| <= |xs|
            && (forall j | 0 <= j < |line.records| :: Writable(xs[j]) && line.records[j] == xs[j].value)
            && (line.torn <==> |line.records| < |xs| && xs[|line.records|].Ok?))
      && (d.outcome == Pass ==>
            && (file.lines == [] <==> |xs| == 0)
            && (file.lines != [] ==> !file.lines[0].torn && |file.lines[0].records| == |xs|))
      && (d.outcome.Fail? ==>
            && |d.records| < |xs| && !Writable(xs[|d.records|])
            && d.outcome.error == if xs[|d.records|].Ok? then TypeError else xs[|d.records|].error)
  {
    DumpPrefixSpec(xs, |xs|);
  }

  /** What `save()` leaves: nothing when the index is empty, otherwise a
      single line; it succeeds exactly when every record is written in
      full, and then the line holds one map per record. */
  lemma FlushSpec(view: Dict<Snapshot>)
    ensures Flush(view).0.Lines? && |Flush(view).0.lines| <= 1
    ensures Flush(view).1 == Pass <==> forall k | k in view.entries :: Dumpable(view.entries[k])
    ensures Flush(view).1 == Pass ==>
      && (Flush(view).0.lines == [] <==> Size(view) == 0)
      && (Flush(view).0.lines != [] ==>
            !Flush(view).0.lines[0].torn && |Flush(view).0.lines[0].records| == Size(view))
  {
    WrittenSpec(Exports(view));
    AllDumpable(view);
  }

  /** The line `save()` writes holds, in index order, the `to_dict()` of
      every record it got through, and ends in an unfinished map exactly
      when it stopped at a record whose `to_dict()` succeeded. */
  lemma FlushContents(view: Dict<Snapshot>)
    ensures Flush(view).0.lines != [] ==>
      var line := Flush(view).0.lines[0];
      var xs := Exports(view);
      && |line.records| <= Size(view)
      && (forall j | 0 <= j < |line.records| :: Writable(xs[j]) && line.records[j] == xs[j].value)
      && (line.torn <==> |line.records| < Size(view) && xs[|line.records|].Ok?)
  {
    WrittenSpec(Exports(view));
  }

  /** When `save()` raises, it is at the first record it cannot write in
      full: AttributeError from its `to_dict()` or TypeError from
      `json.dump`. */
  lemma FlushFailure(view: Dict<Snapshot>)
    requires Flush(view).1.Fail?
    ensures
      var xs := Exports(view);
      var r := |DumpPrefix(xs, Size(view)).records|;
      && r < Size(view) && !Writable(xs[r])
      && Flush(view).1.error == if xs[r].Ok? then TypeError else AttributeError
  {
    var xs := Exports(view);
    WrittenSpec(xs);
    var r := |DumpPrefix(xs, |xs|).records|;
    assert xs[r] == Exported(At(view, r));
  }

  lemma AllDumpable(view: Dict<Snapshot>)
    ensures (forall i | 0 <= i < |view.keys| :: Writable(Exports(view)[i]))
        <==> (forall k | k in view.entries :: Dumpable(view.entries[k]))
  {
    if forall i | 0 <= i < |view.keys| :: Writable(Exports(view)[i]) {
      forall k | k in view.entries
        ensures Dumpable(view.entries[k])
      {
        var i :| 0 <= i < |view.keys| && view.keys[i] == k;
        assert Exports(view)[i] == Exported(view.entries[k]);
      }
    } else {
      var i :| 0 <= i < |view.keys| && !Writable(Exports(view)[i]);
      assert view.keys[i] in view.entries;
    }
  }

  /** A record whose state `save()` and `reload()` carry: both timestamps are
      `datetime`s, it has an `id`, it holds no `__class__` of its own, and
      every other value is one `json.dump` encodes. */
  predicate Storable(s: Snapshot) {
    && HasTime(s.attrs, CreatedKey) && HasTime(s.attrs, UpdatedKey)
    && IdKey in s.attrs.entries && ClassKey !in s.attrs.entries
    && forall k | k in s.attrs.entries && !IsTimestampKey(k) :: IsJson(s.attrs.entries[k])
  }

  lemma StorableDumpable(s: Snapshot)
    requires Storable(s)
    ensures Dumpable(s)
  {
    var m := Export(s.kind, s.attrs).value;
    ExportSpec(s.kind, s.attrs);
    forall k | k in m.entries
      ensures IsJson(m.entries[k])
    {
      if k != ClassKey && !IsTimestampKey(k) {
        assert k in s.attrs.entries;
      }
    }
  }

  /** One line of `reload()`: `json.loads` accepts a line holding exactly
      one complete map (JSONDecodeError otherwise); the record is rebuilt as
      a `BaseModel` from it (`m` supplies the id and clock readings when the
      map is empty) and filed under `BaseModel.<id>`; a record without an
      `id` makes `new()` raise AttributeError. */
  function LoadLine(index: Dict<Snapshot>, line: Line, m: Mint): (r: (Dict<Snapshot>, Outcome))
    ensures r.1.Fail? ==> r.0 == index
    ensures r.1.Pass? ==>
      && |line.records| == 1 && !line.torn
      && index.keys <= r.0.keys && |r.0.keys| <= |index.keys| + 1
  {
    if |line.records| != 1 || line.torn then (index, Fail(JSONDecodeError))
    else
      match Init(line.records[0], m)
      case Err(e) => (index, Fail(e))
      case Ok(attrs) =>
        if IdKey !in attrs.entries then (index, Fail(AttributeError))
        else (Put(index, Key(BaseModelKind, attrs.entries[IdKey]), Snapshot(BaseModelKind, attrs)), Pass)
  }

  /** A line holding one map whose rebuild raises changes nothing. */
  lemma LoadLineError(index: Dict<Snapshot>, line: Line, m: Mint)
    requires |line.records| == 1 && !line.torn && Init(line.records[0], m).Err?
    ensures LoadLine(index, line, m) == (index, Fail(Init(line.records[0], m).error))
  {
  }

  /** A line holding one map that rebuilds to `attrs` files it under its
      id, if it has one. */
  lemma LoadLineLoaded(index: Dict<Snapshot>, line: Line, m: Mint, attrs: Dict<Value>)
    requires |line.records| == 1 && !line.torn && Init(line.records[0], m) == Ok(attrs)
    ensures LoadLine(index, line, m) ==
      if IdKey !in attrs.entries then (index, Fail(AttributeError))
      else (Put(index, Key(BaseModelKind, attrs.entries[IdKey]), Snapshot(BaseModelKind, attrs)), Pass)
  {
  }

  /** The `reload()` loop after the first `n` lines; `mint(i)` is what a
      fresh record made for line `i` would take from `uuid4()` and the
      clock. The first exception ends the loop and leaves the records
      filed so far. */
  function ReloadPrefix(index: Dict<Snapshot>, lines: seq<Line>, mint: nat -> Mint, n: nat): (r: (Dict<Snapshot>, Outcome))
    requires n <= |lines|
    ensures index.keys <= r.0.keys && |r.0.keys| <= |index.keys| + n
  {
    if n == 0 then (index, Pass)
    else
      ReloadStep(ReloadPrefix(index, lines, mint, n - 1), lines[n - 1], mint(n - 1))
  }

  /** One pass of the `reload()` loop after the earlier ones ended in
      `prev`: nothing once an exception was raised. */
  function ReloadStep(prev: (Dict<Snapshot>, Outcome), line: Line, m: Mint): (Dict<Snapshot>, Outcome) {
    if prev.1.Fail? then prev else LoadLine(prev.0, line, m)
  }

  /** One more line of the loop. */
  lemma ReloadNext(index: Dict<Snapshot>, lines: seq<Line>, mint: nat -> Mint, i: nat)
    requires i < |lines|
    ensures
      ReloadPrefix(index, lines, mint, i + 1) == ReloadStep(ReloadPrefix(index, lines, mint, i), lines[i], mint(i))
  {
  }

  /** Once the loop has raised, the rest of the file is not read. */
  lemma {:induction false} ReloadPrefixStops(index: Dict<Snapshot>, lines: seq<Line>, mint: nat -> Mint, i: nat, n: nat)
    requires i <= n <= |lines| && ReloadPrefix(index, lines, mint, i).1.Fail?
    ensures ReloadPrefix(index, lines, mint, n) == ReloadPrefix(index, lines, mint, i)
  {
    if i < n {
      ReloadPrefixStops(index, lines, mint, i, n - 1);
      var prev := ReloadPrefix(index, lines, mint, n - 1);
      assert ReloadPrefix(index, lines, mint, n) == ReloadStep(prev, lines[n - 1], mint(n - 1));
    }
  }

  /** `reload()`: a missing file leaves the index as it is; otherwise the
      keys already filed keep their places, and each line adds at most one. */
  function Reload(index: Dict<Snapshot>, file: Store, mint: nat -> Mint): (r: (Dict<Snapshot>, Outcome))
    ensures file.Missing? ==> r == (index, Pass)
    ensures index.keys <= r.0.keys
    ensures file.Lines? ==> |r.0.keys| <= |index.keys| + |file.lines|
  {
    match file
    case Missing => (index, Pass)
    case Lines(lines) => ReloadPrefix(index, lines, mint, |lines|)
  }

  /** Whether an index key is one `reload()` can file a record under. */
  predicate IsBaseModelKey(k: string) {
    |BaseModelKind + "."| <= |k| && k[..|BaseModelKind + "."|] == BaseModelKind + "."
  }

  /** What `reload()` may do to an index: keep every key where it was, add
      keys after them, and file only rebuilt `BaseModel` records, under
      `BaseModel.` keys; every other record stays as it was. */
  ghost predicate Merged(base: Dict<Snapshot>, r: Dict<Snapshot>) {
    && |base.keys| <= |r.keys| && r.keys[..|base.keys|] == base.keys
    && forall k | k in r.entries ::
         || (k in base.entries && r.entries[k] == base.entries[k])
         || (IsBaseModelKey(k) && r.entries[k].kind == BaseModelKind)
  }

  lemma KeyIsBaseModelKey(id: Value)
    ensures IsBaseModelKey(Key(BaseModelKind, id))
  {
    var k := Key(BaseModelKind, id);
    assert k == BaseModelKind + "." + StrOf(id);
    assert k[..|BaseModelKind + "."|] == BaseModelKind + ".";
  }

  lemma MergedStep(base: Dict<Snapshot>, d: Dict<Snapshot>, line: Line, m: Mint)
    requires Merged(base, d)
    ensures Merged(base, LoadLine(d, line, m).0)
  {
    var r := LoadLine(d, line, m).0;
    if r != d {
      var attrs := Init(line.records[0], m).value;
      var k := Key(BaseModelKind, attrs.entries[IdKey]);
      KeyIsBaseModelKey(attrs.entries[IdKey]);
      PutSpec(d, k, Snapshot(BaseModelKind, attrs));
      assert r.keys[..|base.keys|] == d.keys[..|base.keys|];
    }
  }

  lemma {:induction false} ReloadPrefixMerged(base: Dict<Snapshot>, lines: seq<Line>, mint: nat -> Mint, n: nat)
    requires n <= |lines|
    ensures Merged(base, ReloadPrefix(base, lines, mint, n).0)
  {
    if n > 0 {
      ReloadPrefixMerged(base, lines, mint, n - 1);
      MergedNext(base, ReloadPrefix(base, lines, mint, n - 1), ReloadPrefix(base, lines, mint, n), lines[n - 1], mint(n - 1));
    }
  }

  lemma MergedNext(base: Dict<Snapshot>, p: (Dict<Snapshot>, Outcome), q: (Dict<Snapshot>, Outcome), line: Line, m: Mint)
    requires Merged(base, p.0)
    requires q == ReloadStep(p, line, m)
    ensures Merged(base, q.0)
  {
    if p.1.Pass? {
      MergedStep(base, p.0, line, m);
    }
  }

  /** `reload()` merges into the index rather than replacing it: whatever
      the file holds, and whether or not it raises, the records already
      filed keep their keys and order, and the only records it files are
      `BaseModel`s under `BaseModel.` keys. */
  lemma ReloadMerges(base: Dict<Snapshot>, file: Store, mint: nat -> Mint)
    ensures Merged(base, Reload(base, file, mint).0)
    ensures file.Missing? ==> Reload(base, file, mint) == (base, Pass)
  {
    if file.Lines? {
      ReloadPrefixMerged(base, file.lines, mint, |file.lines|);
    }
  }

  lemma DumpOne(xs: seq<Result<Dict<Value>>>)
    requires |xs| == 1 && Writable(xs[0])
    ensures DumpPrefix(xs, 1) == Dump([xs[0].value], false, Pass)
  {
    assert DumpPrefix(xs, 0) == Dump([], false, Pass);
  }

  /** `save()` with one writable record writes its map alone on one line. */
  lemma FlushOne(view: Dict<Snapshot>)
    requires Size(view) == 1 && Dumpable(At(view, 0))
    ensures Flush(view) == (Lines([Line([Exported(At(view, 0)).value], false)]), Pass)
  {
    var xs := Exports(view);
    assert xs[0] == Exported(At(view, 0));
    DumpOne(xs);
  }

  /** `reload()` of a one-line file handles that line. */
  lemma ReloadOneLine(base: Dict<Snapshot>, line: Line, mint: nat -> Mint)
    ensures Reload(base, Lines([line]), mint) == LoadLine(base, line, mint(0))
  {
    assert ReloadPrefix(base, [line], mint, 0) == (base, Pass);
    assert [line][0] == line;
  }

  /** Reading back the exported map of a record that can be stored. */
  lemma LoadExported(base: Dict<Snapshot>, s: Snapshot, m: Mint)
    requires Storable(s)
    ensures LoadLine(base, Line([Exported(s).value], false), m) ==
      if SelfKey in s.attrs.entries then (base, Fail(TypeError))
      else if s.attrs.entries[CreatedKey].t.microsecond != 0 && s.attrs.entries[UpdatedKey].t.microsecond != 0
      then (Put(base, Key(BaseModelKind, s.attrs.entries[IdKey]), Snapshot(BaseModelKind, s.attrs)), Pass)
      else (base, Fail(ValueError))
  {
    ExportRoundTrip(s.kind, s.attrs, m);
  }

  /** Save then reload with a single record: the file holds its one map on
      one line, and reading it back files a `BaseModel` with the same
      instance dict under `BaseModel.<id>`, whatever the record's own class
      was. A `self` attribute makes the rebuild raise TypeError, and a
      timestamp on a whole second makes it raise ValueError; either way the
      index is left as it was. */
  lemma SaveReloadOne(view: Dict<Snapshot>, base: Dict<Snapshot>, mint: nat -> Mint)
    requires Size(view) == 1 && Storable(At(view, 0))
    ensures Flush(view).1 == Pass
    ensures
      var s := At(view, 0);
      Reload(base, Flush(view).0, mint) ==
        if SelfKey in s.attrs.entries then (base, Fail(TypeError))
        else if s.attrs.entries[CreatedKey].t.microsecond != 0 && s.attrs.entries[UpdatedKey].t.microsecond != 0
        then (Put(base, Key(BaseModelKind, s.attrs.entries[IdKey]), Snapshot(BaseModelKind, s.attrs)), Pass)
        else (base, Fail(ValueError))
  {
    var s := At(view, 0);
    StorableDumpable(s);
    FlushOne(view);
    ReloadOneLine(base, Line([Exported(s).value], false), mint);
    LoadExported(base, s, mint(0));
  }

  /** A record that `save()` and `reload()` hand back unchanged: a
      `BaseModel` filed under its own key, with no `self` attribute, whose
      timestamps both have a fraction. */
  predicate RoundTrips(view: Dict<Snapshot>, k: string) {
    && k in view.entries
    && var s := view.entries[k];
       && Storable(s) && s.kind == BaseModelKind && k == Key(BaseModelKind, s.attrs.entries[IdKey])
       && SelfKey !in s.attrs.entries
       && s.attrs.entries[CreatedKey].t.microsecond != 0 && s.attrs.entries[UpdatedKey].t.microsecond != 0
  }

  /** For such a record, and only with one record in the index, saving and
      reloading in the same process leaves the index exactly as it was. */
  lemma SaveReloadIdentity(view: Dict<Snapshot>, mint: nat -> Mint)
    requires Size(view) == 1 && RoundTrips(view, view.keys[0])
    ensures Flush(view).1 == Pass
    ensures Reload(view, Flush(view).0, mint) == (view, Pass)
  {
    SaveReloadOne(view, view, mint);
    var k := view.keys[0];
    PutSpec(view, k, view.entries[k]);
    assert view.entries[k := view.entries[k]] == view.entries;
  }

  /** Save then reload with two or more writable records: they all land on
      one line, `json.loads` rejects it with JSONDecodeError, and the index
      is left as it was. */
  lemma SaveReloadMany(view: Dict<Snapshot>, base: Dict<Snapshot>, mint: nat -> Mint)
    requires Size(view) >= 2
    requires forall k | k in view.entries :: Dumpable(view.entries[k])
    ensures Flush(view).1 == Pass
    ensures Reload(base, Flush(view).0, mint) == (base, Fail(JSONDecodeError))
  {
    FlushSpec(view);
    ReloadOneLine(base, Flush(view).0.lines[0], mint);
  }
}
