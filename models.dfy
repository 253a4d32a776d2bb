/** The program's objects: `BaseModel` instances whose instance dict is
    updated in place, the `__objects` dict of the storage engine that holds
    them by reference, and `FileStorage` with its `new`, `save` and `reload`
    methods. Each method is specified by the value-level functions of
    `Records` and `Persistence`. */
module Models {
  import opened Results
  import opened PyDict
  import opened Values
  import opened Records
  import opened Persistence
  import Timestamps

  /** A record: the name of its class and its instance dict `__dict__`. */
  class BaseModel {
    const kind: string
    var attrs: Dict<Value>

    function Snap(): Snapshot
      reads this
    {
      Snapshot(kind, attrs)
    }

    /** An instance whose `__init__` has not yet stored anything. */
    constructor Blank(kind: string)
      ensures this.kind == kind && attrs == Empty()
    {
      this.kind := kind;
      attrs := Empty();
    }

    /** `__init__` with no keyword arguments: a fresh id and two clock
        readings taken from `m`, then `storage.new(self)`. */
    constructor Fresh(kind: string, m: Mint, storage: FileStorage)
      modifies storage.objects
      ensures this.kind == kind && attrs == FreshAttrs(m)
      ensures storage.objects.contents == Put(old(storage.objects.contents), Key(kind, Str(m.id)), this)
      ensures storage.objects.View() == Put(old(storage.objects.View()), Key(kind, Str(m.id)), Snap())
    {
      this.kind := kind;
      attrs := FreshAttrs(m);
      new;
      assert storage.objects.View() == old(storage.objects.View());
      FreshLayout(m);
      var _ := storage.New(this);
    }

    /** `__init__` with keyword arguments: a `self` keyword fails the
        binding with TypeError; otherwise the loop over them, in order,
        stores parsed timestamps and every other key but `__class__`, and
        the first timestamp `strptime` rejects ends construction with its
        exception. The object is not filed in the storage. */
    static method FromArguments(kind: string, kwargs: Dict<Value>) returns (r: Result<BaseModel>)
      ensures r.Ok? <==> SelfKey !in kwargs.entries && FromKwargs(kwargs).Ok?
      ensures r.Err? ==> r.error == if SelfKey in kwargs.entries then TypeError else FromKwargs(kwargs).error
      ensures r.Ok? ==> fresh(r.value) && r.value.kind == kind && r.value.attrs == FromKwargs(kwargs).value
    {
      if SelfKey in kwargs.entries {
        return Err(TypeError);
      }
      var obj := new BaseModel.Blank(kind);
      var outcome := obj.StoreAll(kwargs);
      if outcome.Fail? {
        return Err(outcome.error);
      }
      return Ok(obj);
    }

    /** The loop of `__init__` over its keyword arguments, in order, on an
        instance with an empty dict; it stops at the first exception. */
    method StoreAll(kwargs: Dict<Value>) returns (outcome: Outcome)
      requires attrs == Empty()
      modifies this
      ensures outcome.Pass? <==> FromKwargs(kwargs).Ok?
      ensures outcome.Pass? ==> attrs == FromKwargs(kwargs).value
      ensures outcome.Fail? ==> outcome.error == FromKwargs(kwargs).error
    {
      var n := |kwargs.keys|;
      var i := 0;
      var acc := attrs;
      while i < n
        invariant 0 <= i <= n
        invariant LoadPrefix(kwargs, i) == Ok(acc) && attrs == acc
      {
        var k := kwargs.keys[i];
        LoadPrefixOk(kwargs, i, acc);
        var next := LoadEntry(acc, k, At(kwargs, i));
        if next.Err? {
          LoadPrefixStops(kwargs, i + 1, n);
          return Fail(next.error);
        }
        acc := next.value;
        attrs := acc;
        i := i + 1;
      }
      return Pass;
    }

    /** `BaseModel(**kwargs)` (or a subclass named `kind`): the fresh branch
        when there are no keyword arguments, which also files the object in
        `storage`, otherwise the rebuild from them, which does not. */
    static method Create(kind: string, kwargs: Dict<Value>, m: Mint, storage: FileStorage) returns (r: Result<BaseModel>)
      modifies storage.objects
      ensures r.Ok? <==> Init(kwargs, m).Ok?
      ensures r.Err? ==> r.error == Init(kwargs, m).error
      ensures r.Ok? ==> fresh(r.value) && r.value.kind == kind && r.value.attrs == Init(kwargs, m).value
      ensures Size(kwargs) == 0 ==>
        && r.Ok?
        && storage.objects.contents == Put(old(storage.objects.contents), Key(kind, Str(m.id)), r.value)
        && storage.objects.View() == Put(old(storage.objects.View()), Key(kind, Str(m.id)), r.value.Snap())
      ensures Size(kwargs) != 0 ==> storage.objects.contents == old(storage.objects.contents)
      ensures Size(kwargs) != 0 ==> storage.objects.View() == old(storage.objects.View())
    {
      if Size(kwargs) != 0 {
        r := FromArguments(kind, kwargs);
      } else {
        var obj := new BaseModel.Fresh(kind, m, storage);
        r := Ok(obj);
      }
    }

    /** `save()`: `updated_at` becomes the clock reading `now`, then the
        whole storage is written out. */
    method Save(now: Timestamps.Timestamp, storage: FileStorage) returns (outcome: Outcome)
      modifies this, storage
      ensures attrs == Put(old(attrs), UpdatedKey, Time(now))
      ensures attrs.keys == old(attrs.keys) + (if UpdatedKey in old(attrs.entries) then [] else [UpdatedKey])
      ensures attrs.entries[UpdatedKey] == Time(now)
      ensures forall k | k in old(attrs.entries) && k != UpdatedKey :: attrs.entries[k] == old(attrs.entries[k])
      ensures storage.objects.contents == old(storage.objects.contents)
      ensures (storage.file, outcome) == Flush(storage.objects.View())
    {
      PutSpec(attrs, UpdatedKey, Time(now));
      attrs := Put(attrs, UpdatedKey, Time(now));
      outcome := storage.Save();
    }
  }

  /** `after` keeps the keys of `before` as a prefix, and each of its keys
      holds either one of the objects `made` or the object `before` held
      under it. */
  ghost predicate Grown(before: Dict<BaseModel>, after: Dict<BaseModel>, made: set<BaseModel>) {
    && before.keys <= after.keys
    && forall k | k in after.entries ::
      after.entries[k] in made || (k in before.entries && after.entries[k] == before.entries[k])
  }

  /** Filing one more object `o` keeps an index grown from `before`, with
      `o` among the objects made. */
  lemma GrownPut(before: Dict<BaseModel>, prev: Dict<BaseModel>, made: set<BaseModel>, k: string, o: BaseModel)
    requires Grown(before, prev, made)
    ensures Grown(before, Put(prev, k, o), made + {o})
  {
    PutSpec(prev, k, o);
  }

  /** The state of every record an index holds, in index order. */
  function Snapshots(c: Dict<BaseModel>): Dict<Snapshot>
    reads c.entries.Values
  {
    RawDict(c.keys, map k | k in c.entries :: c.entries[k].Snap())
  }

  /** Filing a record adds its state under its key. */
  lemma SnapshotsPut(c: Dict<BaseModel>, k: string, obj: BaseModel)
    ensures Snapshots(Put(c, k, obj)) == Put(Snapshots(c), k, obj.Snap())
  {
    var c' := Put(c, k, obj);
    PutSpec(c, k, obj);
    PutSpec(Snapshots(c), k, obj.Snap());
    assert Snapshots(c').keys == Put(Snapshots(c), k, obj.Snap()).keys;
    assert Snapshots(c').entries == Put(Snapshots(c), k, obj.Snap()).entries by {
      forall j | j in c'.entries
        ensures Snapshots(c').entries[j] == Snapshots(c).entries[k := obj.Snap()][j]
      {
        if j != k {
          assert j in c.entries;
        }
      }
    }
  }

  /** The `i`-th record's `to_dict()` is the `i`-th export of the
      index's state. */
  lemma ExportsAt(c: Dict<BaseModel>, i: nat)
    requires i < |c.keys|
    ensures c.keys[i] in c.entries
    ensures Exports(Snapshots(c))[i] == Export(c.entries[c.keys[i]].kind, c.entries[c.keys[i]].attrs)
  {
  }

  /** The `__objects` dict: index keys to the record objects themselves. */
  class ObjectIndex {
    var contents: Dict<BaseModel>

    constructor ()
      ensures contents == Empty()
    {
      contents := Empty();
    }

    /** The state of every filed record, in index order. */
    function View(): Dict<Snapshot>
      reads this, contents.entries.Values
    {
      Snapshots(contents)
    }
  }

  /** `FileStorage`: the object index and the file at the storage path. */
  class FileStorage {
    const objects: ObjectIndex
    var file: Store

    constructor (file: Store)
      ensures this.file == file && fresh(objects) && objects.contents == Empty()
    {
      this.file := file;
      objects := new ObjectIndex();
    }

    /** `all()`: the index itself, not a copy, so what a caller does to it
        is done to the storage. */
    method All() returns (r: ObjectIndex)
      ensures r == objects
    {
      r := objects;
    }

    /** `new(obj)`: file `obj` under `<class name>.<id>`, keeping the place
        of a key already present; AttributeError when it has no `id`. */
    method New(obj: BaseModel) returns (outcome: Outcome)
      modifies objects
      ensures IdKey !in obj.attrs.entries ==>
        outcome == Fail(AttributeError) && objects.contents == old(objects.contents)
      ensures IdKey in obj.attrs.entries ==>
        && outcome == Pass
        && objects.contents == Put(old(objects.contents), Key(obj.kind, obj.attrs.entries[IdKey]), obj)
        && objects.View() == Put(old(objects.View()), Key(obj.kind, obj.attrs.entries[IdKey]), obj.Snap())
    {
      if IdKey !in obj.attrs.entries {
        return Fail(AttributeError);
      }
      var k := Key(obj.kind, obj.attrs.entries[IdKey]);
      SnapshotsPut(objects.contents, k, obj);
      objects.contents := Put(objects.contents, k, obj);
      outcome := Pass;
    }

    /** The `save()` loop: `json.dump(obj.to_dict(), f)` for each record
        in index order, stopping at the first exception. Returns the maps
        written in full, whether the map it stopped in was partly written,
        and how the loop ended. */
    method DumpAll() returns (written: seq<Dict<Value>>, torn: bool, outcome: Outcome)
      ensures Dump(written, torn, outcome) == DumpPrefix(Exports(objects.View()), |objects.contents.keys|)
    {
      var c := objects.contents;
      ghost var xs := Exports(Snapshots(c));
      var i := 0;
      var d := Dump([], false, Pass);
      while i < |c.keys| && d.outcome.Pass?
        invariant 0 <= i <= |c.keys| == |xs|
        invariant xs == Exports(Snapshots(c))
        invariant d == DumpPrefix(xs, i)
      {
        ExportsAt(c, i);
        var obj := c.entries[c.keys[i]];
        var x := Export(obj.kind, obj.attrs);
        assert x == xs[i];
        DumpPrefixNext(xs, i, d);
        d := DumpStep(d, x);
        i := i + 1;
      }
      DumpPrefixEnd(xs, i, d);
      return d.records, d.torn, d.outcome;
    }

    /** `save()`: the file is truncated and then holds what the loop wrote. */
    method Save() returns (outcome: Outcome)
      modifies this`file
      ensures objects.contents == old(objects.contents)
      ensures (file, outcome) == Flush(objects.View())
    {
      ghost var view := objects.View();
      var written, torn;
      written, torn, outcome := DumpAll();
      FlushByLoop(view, Exports(view), Dump(written, torn, outcome));
      file := Written(written, torn);
      assert objects.View() == view;
    }

    /** One line of `reload()`: `json.loads(line)`, then
        `BaseModel(**obj_dict)`, then `self.new(obj)`. */
    method ReloadLine(line: Line, m: Mint) returns (outcome: Outcome, ghost k: string)
      modifies objects
      ensures (objects.View(), outcome) == LoadLine(old(objects.View()), line, m)
      ensures outcome.Fail? ==> objects.contents == old(objects.contents)
      ensures outcome.Pass? ==>
        && k in objects.contents.entries && fresh(objects.contents.entries[k])
        && objects.contents == Put(old(objects.contents), k, objects.contents.entries[k])
    {
      k := "";
      if |line.records| != 1 || line.torn {
        return Fail(JSONDecodeError), k;
      }
      ghost var before := objects.View();
      var r := BaseModel.Create(BaseModelKind, line.records[0], m, this);
      if r.Err? {
        LoadLineError(before, line, m);
        return Fail(r.error), k;
      }
      ghost var attrs := r.value.attrs;
      LoadLineLoaded(before, line, m, attrs);
      outcome := New(r.value);
      if Size(line.records[0]) == 0 {
        FreshLayout(m);
        PutTwice(before, Key(BaseModelKind, Str(m.id)), r.value.Snap());
        PutTwice(old(objects.contents), Key(BaseModelKind, Str(m.id)), r.value);
      }
      if outcome.Pass? {
        k := Key(BaseModelKind, r.value.attrs.entries[IdKey]);
      }
    }

    /** The `reload()` loop over the lines of the file: each is loaded in
        turn (`mint(i)` supplying what a fresh record made for line `i`
        would take), until the first exception. */
    method ReloadLines(lines: seq<Line>, mint: nat -> Mint) returns (outcome: Outcome)
      modifies objects
      ensures (objects.View(), outcome) == ReloadPrefix(old(objects.View()), lines, mint, |lines|)
      ensures old(objects.contents.keys) <= objects.contents.keys
      ensures forall k | k in objects.contents.entries ::
        || fresh(objects.contents.entries[k])
        || (k in old(objects.contents.entries) && objects.contents.entries[k] == old(objects.contents.entries[k]))
    {
      ghost var base := objects.View();
      ghost var before := objects.contents;
      ghost var made: set<BaseModel> := {};
      outcome := Pass;
      var i := 0;
      while i < |lines| && outcome.Pass?
        invariant 0 <= i <= |lines|
        invariant ReloadPrefix(base, lines, mint, i) == (objects.View(), outcome)
        invariant Grown(before, objects.contents, made)
        invariant forall o | o in made :: fresh(o)
      {
        ReloadNext(base, lines, mint, i);
        ghost var prev := objects.contents;
        ghost var k;
        outcome, k := ReloadLine(lines[i], mint(i));
        if outcome.Pass? {
          ghost var o := objects.contents.entries[k];
          GrownPut(before, prev, made, k, o);
          made := made + {o};
        }
        i := i + 1;
      }
      if i < |lines| {
        ReloadPrefixStops(base, lines, mint, i, |lines|);
      }
    }

    /** `reload()`: nothing when the file is missing, otherwise the loop
        over its lines. */
    method Reload(mint: nat -> Mint) returns (outcome: Outcome)
      modifies objects
      ensures (objects.View(), outcome) == Persistence.Reload(old(objects.View()), file, mint)
      ensures file.Missing? ==> objects.contents == old(objects.contents)
      ensures old(objects.contents.keys) <= objects.contents.keys
      ensures forall k | k in objects.contents.entries ::
        || fresh(objects.contents.entries[k])
        || (k in old(objects.contents.entries) && objects.contents.entries[k] == old(objects.contents.entries[k]))
    {
      if file.Missing? {
        return Pass;
      }
      outcome := ReloadLines(file.lines, mint);
    }
  }
}
