/** The record base class `BaseModel` as values: the instance dict its
    constructor builds, the export map `to_dict` returns and the text
    `__str__` returns. The class that holds this state is `Models.BaseModel`. */
module Records {
  import opened Results
  import opened PyDict
  import opened Values
  import Timestamps

  const IdKey := "id"
  const CreatedKey := "created_at"
  const UpdatedKey := "updated_at"
  const ClassKey := "__class__"
  /** The name of the constructor's bound instance parameter: a keyword
      argument of that name collides with it. */
  const SelfKey := "self"

  /** The four reserved keys are different strings. */
  lemma ReservedKeysDistinct()
    ensures IdKey != CreatedKey && IdKey != UpdatedKey && IdKey != ClassKey
    ensures CreatedKey != UpdatedKey && CreatedKey != ClassKey && UpdatedKey != ClassKey
  {
    assert IdKey[0] == 'i' && CreatedKey[0] == 'c' && UpdatedKey[0] == 'u' && ClassKey[0] == '_';
  }

  /** `self` is none of the reserved keys. */
  lemma SelfKeyDistinct()
    ensures SelfKey != IdKey && SelfKey != CreatedKey && SelfKey != UpdatedKey && SelfKey != ClassKey
  {
    assert SelfKey[0] == 's';
    ReservedKeysDistinct();
  }

  /** A record's state: the name of its class and its instance dict. */
  datatype Snapshot = Snapshot(kind: string, attrs: Dict<Value>)

  /** What the no-argument constructor takes from outside: the text of a
      fresh `uuid4()` and the two readings of `datetime.now()`. */
  datatype Mint = Mint(id: string, created: Timestamps.Timestamp, updated: Timestamps.Timestamp)

  predicate IsTimestampKey(k: string) {
    k == CreatedKey || k == UpdatedKey
  }

  /** The instance dict of a freshly minted record: `id`, `created_at`,
      `updated_at`, in that order. */
  function FreshAttrs(m: Mint): Dict<Value> {
    Put(Put(Put(Empty(), IdKey, Str(m.id)), CreatedKey, Time(m.created)), UpdatedKey, Time(m.updated))
  }

  /** One pass of the constructor's loop over its keyword arguments: a
      timestamp key must hold text that `strptime` accepts (TypeError for a
      non-string, ValueError for a mismatch); `__class__` is skipped; any
      other key is copied. The pass goes through exactly when the argument
      is not a timestamp `strptime` rejects, whatever was stored before. */
  function LoadEntry(acc: Dict<Value>, k: string, v: Value): (r: Result<Dict<Value>>)
    ensures r.Ok? <==> (IsTimestampKey(k) ==> Readable(v))
    ensures r.Err? ==> r.error == if v.Str? then ValueError else TypeError
  {
    if IsTimestampKey(k) then
      match v
      case Str(s) =>
        (match Timestamps.Parse(s)
         case Ok(t) => Ok(Put(acc, k, Time(t)))
         case Err(e) => Err(e))
      case _ => Err(TypeError)
    else if k != ClassKey then Ok(Put(acc, k, v))
    else Ok(acc)
  }

  /** The instance dict once the loop has visited the first `n` keyword
      arguments in order, or the first exception raised. */
  function LoadPrefix(kwargs: Dict<Value>, n: nat): Result<Dict<Value>>
    requires n <= |kwargs.keys|
  {
    if n == 0 then Ok(Empty())
    else LoadNext(LoadPrefix(kwargs, n - 1), kwargs.keys[n - 1], At(kwargs, n - 1))
  }

  /** One more pass of the loop after the earlier ones ended in `prev`:
      nothing once an exception was raised. */
  function LoadNext(prev: Result<Dict<Value>>, k: string, v: Value): Result<Dict<Value>> {
    if prev.Err? then prev else LoadEntry(prev.value, k, v)
  }

  /** The instance dict built from keyword arguments (the branch taken when
      there are any). */
  function FromKwargs(kwargs: Dict<Value>): (r: Result<Dict<Value>>)
    ensures r.Ok? <==> ReadablePrefix(kwargs, |kwargs.keys|)
    ensures r.Ok? ==> ClassKey !in r.value.entries && |r.value.keys| <= |kwargs.keys|
  {
    var n := |kwargs.keys|;
    LoadPrefixOkIff(kwargs, n);
    LoadPrefixSpec(kwargs, n);
    assert kwargs.keys[..n] == kwargs.keys;
    LoadPrefix(kwargs, n)
  }

  /** The whole call `BaseModel(**kwargs)`: no keyword arguments mint a
      fresh record, otherwise the record is rebuilt from them. Binding the
      arguments comes first: a `self` keyword gives the bound instance a
      second value and raises TypeError before the body runs. */
  function Init(kwargs: Dict<Value>, m: Mint): (r: Result<Dict<Value>>)
    ensures Size(kwargs) == 0 ==>
      r.Ok? && r.value.keys == [IdKey, CreatedKey, UpdatedKey] && r.value.entries[IdKey] == Str(m.id)
    ensures Size(kwargs) != 0 ==>
      (r.Ok? <==> SelfKey !in kwargs.entries && ReadablePrefix(kwargs, |kwargs.keys|))
    ensures SelfKey in kwargs.entries ==> r == Err(TypeError)
  {
    FreshLayout(m);
    if Size(kwargs) == 0 then Ok(FreshAttrs(m))
    else if SelfKey in kwargs.entries then Err(TypeError)
    else FromKwargs(kwargs)
  }

  /** A timestamp argument the constructor accepts: text `strptime` parses. */
  predicate Readable(v: Value) {
    v.Str? && Timestamps.Parse(v.s).Ok?
  }

  /** The value the constructor stores for an argument it accepts. */
  function Loaded(k: string, v: Value): Value
    requires IsTimestampKey(k) ==> Readable(v)
  {
    if IsTimestampKey(k) then Time(Timestamps.Parse(v.s).value) else v
  }

  /** All timestamp arguments among the first `n` keys are readable. */
  predicate ReadablePrefix(kwargs: Dict<Value>, n: nat)
    requires n <= |kwargs.keys|
  {
    n == 0 ||
    (ReadablePrefix(kwargs, n - 1) && (IsTimestampKey(kwargs.keys[n - 1]) ==> Readable(At(kwargs, n - 1))))
  }

  /** The same, argument by argument. */
  lemma {:induction false} ReadablePrefixEach(kwargs: Dict<Value>, n: nat)
    requires n <= |kwargs.keys|
    ensures ReadablePrefix(kwargs, n) <==>
      forall i | 0 <= i < n && IsTimestampKey(kwargs.keys[i]) :: Readable(At(kwargs, i))
  {
    if n > 0 {
      ReadablePrefixEach(kwargs, n - 1);
    }
  }

  /** One pass of the loop that goes through, for a key not seen before. */
  lemma LoadEntrySpec(acc: Dict<Value>, k: string, v: Value)
    requires k !in acc.entries && LoadEntry(acc, k, v).Ok?
    ensures LoadEntry(acc, k, v).value.keys == acc.keys + (if k == ClassKey then [] else [k])
    ensures LoadEntry(acc, k, v).value.entries ==
      if k == ClassKey then acc.entries else acc.entries[k := Loaded(k, v)]
  {
  }

  lemma KeysWithoutSnoc(keys: seq<string>, x: string, k: string)
    ensures KeysWithout(keys + [x], k) == KeysWithout(keys, k) + (if x == k then [] else [x])
  {
    assert (keys + [x])[..|keys|] == keys;
  }


  /** One more pass of the loop. */
  lemma LoadPrefixNext(kwargs: Dict<Value>, n: nat)
    requires 0 < n <= |kwargs.keys|
    ensures LoadPrefix(kwargs, n) == LoadNext(LoadPrefix(kwargs, n - 1), kwargs.keys[n - 1], At(kwargs, n - 1))
  {
  }

  /** One more pass of the loop, once the earlier ones went through. */
  lemma LoadPrefixOk(kwargs: Dict<Value>, i: nat, acc: Dict<Value>)
    requires i < |kwargs.keys| && LoadPrefix(kwargs, i) == Ok(acc)
    ensures LoadPrefix(kwargs, i + 1) == LoadEntry(acc, kwargs.keys[i], At(kwargs, i))
  {
  }

  /** The loop gets through the first `n` arguments exactly when none of
      them is a timestamp `strptime` rejects. */
  lemma {:induction false} LoadPrefixOkIff(kwargs: Dict<Value>, n: nat)
    requires n <= |kwargs.keys|
    ensures LoadPrefix(kwargs, n).Ok? <==> ReadablePrefix(kwargs, n)
  {
    if n > 0 {
      LoadPrefixOkIff(kwargs, n - 1);
      LoadPrefixNext(kwargs, n);
      var k := kwargs.keys[n - 1];
      LoadNextOk(LoadPrefix(kwargs, n - 1), k, At(kwargs, n - 1), LoadPrefix(kwargs, n));
    }
  }

  /** A pass of the loop goes through exactly when the earlier ones did and
      its argument is not a timestamp `strptime` rejects. */
  lemma LoadNextOk(prev: Result<Dict<Value>>, k: string, v: Value, r: Result<Dict<Value>>)
    requires r == LoadNext(prev, k, v)
    ensures r.Ok? <==> prev.Ok? && (IsTimestampKey(k) ==> Readable(v))
  {
  }

  /** What the loop has built after `n` keyword arguments, when none of
      them raised. */
  ghost predicate LoadedPrefix(kwargs: Dict<Value>, n: nat, a: Dict<Value>)
    requires n <= |kwargs.keys|
  {
    && a.keys == KeysWithout(kwargs.keys[..n], ClassKey)
    && forall k | k in a.entries ::
         && k in kwargs.entries && (IsTimestampKey(k) ==> Readable(kwargs.entries[k]))
         && a.entries[k] == Loaded(k, kwargs.entries[k])
  }

  lemma LoadedPrefixStep(kwargs: Dict<Value>, n: nat, acc: Dict<Value>, r: Dict<Value>)
    requires 0 < n <= |kwargs.keys|
    requires LoadedPrefix(kwargs, n - 1, acc)
    requires LoadEntry(acc, kwargs.keys[n - 1], At(kwargs, n - 1)) == Ok(r)
    ensures LoadedPrefix(kwargs, n, r)
  {
    var k := kwargs.keys[n - 1];
    var v := At(kwargs, n - 1);
    assert kwargs.keys[..n] == kwargs.keys[..n - 1] + [k];
    KeysWithoutSnoc(kwargs.keys[..n - 1], k, ClassKey);
    assert k !in kwargs.keys[..n - 1];
    LoadEntrySpec(acc, k, v);
  }

  /** After the first `n` arguments, when the loop got through them, the
      instance dict holds every key but `__class__` in order, each with
      the value loaded from its argument. */
  lemma {:induction false} LoadPrefixSpec(kwargs: Dict<Value>, n: nat)
    requires n <= |kwargs.keys|
    ensures LoadPrefix(kwargs, n).Ok? ==> LoadedPrefix(kwargs, n, LoadPrefix(kwargs, n).value)
  {
    if n > 0 {
      LoadPrefixSpec(kwargs, n - 1);
      LoadPrefixNext(kwargs, n);
      var prev := LoadPrefix(kwargs, n - 1);
      var r := LoadPrefix(kwargs, n);
      if r.Ok? {
        assert prev.Ok?;
        assert r == LoadEntry(prev.value, kwargs.keys[n - 1], At(kwargs, n - 1));
        LoadedPrefixStep(kwargs, n, prev.value, r.value);
      }
    }
  }

  lemma {:induction false} LoadPrefixError(kwargs: Dict<Value>, n: nat)
    requires n <= |kwargs.keys|
    requires !ReadablePrefix(kwargs, n)
    ensures LoadPrefix(kwargs, n).Err?
    ensures LoadPrefix(kwargs, n).error ==
      if kwargs.entries[FirstUnreadable(kwargs, n)].Str? then ValueError else TypeError
  {
    LoadPrefixNext(kwargs, n);
    var prev := LoadPrefix(kwargs, n - 1);
    if ReadablePrefix(kwargs, n - 1) {
      LoadPrefixOkIff(kwargs, n - 1);
    } else {
      LoadPrefixError(kwargs, n - 1);
    }
    LoadNextError(kwargs, n, prev, LoadPrefix(kwargs, n));
  }

  /** The pass over argument `n - 1` keeps what `LoadPrefixError` states. */
  lemma LoadNextError(kwargs: Dict<Value>, n: nat, prev: Result<Dict<Value>>, r: Result<Dict<Value>>)
    requires 0 < n <= |kwargs.keys| && !ReadablePrefix(kwargs, n)
    requires ReadablePrefix(kwargs, n - 1) ==> prev.Ok?
    requires !ReadablePrefix(kwargs, n - 1) ==>
      prev.Err? && prev.error == if kwargs.entries[FirstUnreadable(kwargs, n - 1)].Str? then ValueError else TypeError
    requires r == LoadNext(prev, kwargs.keys[n - 1], At(kwargs, n - 1))
    ensures r.Err?
    ensures r.error == if kwargs.entries[FirstUnreadable(kwargs, n)].Str? then ValueError else TypeError
  {
  }

  /** Once the loop has raised, it raises the same exception at the end. */
  lemma {:induction false} LoadPrefixStops(kwargs: Dict<Value>, i: nat, n: nat)
    requires i <= n <= |kwargs.keys| && LoadPrefix(kwargs, i).Err?
    ensures LoadPrefix(kwargs, n) == LoadPrefix(kwargs, i)
  {
    if i < n {
      LoadPrefixStops(kwargs, i, n - 1);
      var prev := LoadPrefix(kwargs, n - 1);
      assert LoadPrefix(kwargs, n) == LoadNext(prev, kwargs.keys[n - 1], At(kwargs, n - 1));
    }
  }

  /** The first timestamp argument among the first `n` the constructor
      rejects. */
  function FirstUnreadable(kwargs: Dict<Value>, n: nat): (k: string)
    requires n <= |kwargs.keys|
    requires !ReadablePrefix(kwargs, n)
    ensures k in kwargs.entries && IsTimestampKey(k) && !Readable(kwargs.entries[k])
  {
    var k := kwargs.keys[n - 1];
    if ReadablePrefix(kwargs, n - 1) then k else FirstUnreadable(kwargs, n - 1)
  }

  /** Every timestamp argument, taken in order, is readable exactly when
      every timestamp key of the map holds a readable argument. */
  lemma ReadablePrefixAll(kwargs: Dict<Value>)
    ensures ReadablePrefix(kwargs, |kwargs.keys|) <==>
      forall k | k in kwargs.entries && IsTimestampKey(k) :: Readable(kwargs.entries[k])
  {
    ReadablePrefixEach(kwargs, |kwargs.keys|);
    if ReadablePrefix(kwargs, |kwargs.keys|) {
      forall k | k in kwargs.entries && IsTimestampKey(k)
        ensures Readable(kwargs.entries[k])
      {
        var i :| 0 <= i < |kwargs.keys| && kwargs.keys[i] == k;
      }
    }
  }

  /** Rebuilding from keyword arguments succeeds exactly when every timestamp
      argument is text `strptime` accepts; it then copies every other key but
      `__class__` verbatim, in order, and stores the parsed timestamps. When
      it fails, the exception is the one for the first rejected timestamp:
      ValueError for text, TypeError for anything else. */
  lemma FromKwargsSpec(kwargs: Dict<Value>)
    ensures FromKwargs(kwargs).Ok? <==> ReadablePrefix(kwargs, |kwargs.keys|)
    ensures FromKwargs(kwargs).Ok? <==>
      forall k | k in kwargs.entries && IsTimestampKey(k) :: Readable(kwargs.entries[k])
    ensures FromKwargs(kwargs).Ok? ==>
      var a := FromKwargs(kwargs).value;
      && a.keys == KeysWithout(kwargs.keys, ClassKey)
      && ClassKey !in a.entries
      && forall k | k in a.entries :: k in kwargs.entries && a.entries[k] == Loaded(k, kwargs.entries[k])
    ensures FromKwargs(kwargs).Err? ==>
      var k := FirstUnreadable(kwargs, |kwargs.keys|);
      FromKwargs(kwargs).error == if kwargs.entries[k].Str? then ValueError else TypeError
  {
    var n := |kwargs.keys|;
    ReadablePrefixAll(kwargs);
    LoadPrefixOkIff(kwargs, n);
    LoadPrefixSpec(kwargs, n);
    assert kwargs.keys[..n] == kwargs.keys;
    if !ReadablePrefix(kwargs, n) {
      LoadPrefixError(kwargs, n);
    }
  }

  /** Whether the instance dict holds a `datetime` under `k`. */
  predicate HasTime(attrs: Dict<Value>, k: string) {
    k in attrs.entries && attrs.entries[k].Time?
  }

  /** `to_dict()`: a copy of the instance dict with `__class__` set to the
      class name and both timestamps replaced by their `isoformat()` text;
      AttributeError when either timestamp is missing or is not a
      `datetime`. */
  function Export(kind: string, attrs: Dict<Value>): (r: Result<Dict<Value>>)
    ensures r.Ok? <==> HasTime(attrs, CreatedKey) && HasTime(attrs, UpdatedKey)
    ensures r.Err? ==> r.error == AttributeError
  {
    var copy := Put(attrs, ClassKey, Str(kind));
    if !HasTime(attrs, CreatedKey) then Err(AttributeError)
    else
      var withCreated := Put(copy, CreatedKey, Str(Timestamps.IsoFormat(attrs.entries[CreatedKey].t)));
      if !HasTime(attrs, UpdatedKey) then Err(AttributeError)
      else Ok(Put(withCreated, UpdatedKey, Str(Timestamps.IsoFormat(attrs.entries[UpdatedKey].t))))
  }

  /** The map `to_dict()` returns: the keys of the instance dict in their
      order, then `__class__` unless it was present; `__class__` holds the
      class name, the timestamps their ISO text, and every other entry is
      the instance dict's own. */
  lemma ExportSpec(kind: string, attrs: Dict<Value>)
    requires HasTime(attrs, CreatedKey) && HasTime(attrs, UpdatedKey)
    ensures
      var r := Export(kind, attrs).value;
      && r.keys == attrs.keys + (if ClassKey in attrs.entries then [] else [ClassKey])
      && r.entries[ClassKey] == Str(kind)
      && r.entries[CreatedKey] == Str(Timestamps.IsoFormat(attrs.entries[CreatedKey].t))
      && r.entries[UpdatedKey] == Str(Timestamps.IsoFormat(attrs.entries[UpdatedKey].t))
      && forall k | k in attrs.entries && k != ClassKey && !IsTimestampKey(k) :: r.entries[k] == attrs.entries[k]
  {
    ReservedKeysDistinct();
    var copy := Put(attrs, ClassKey, Str(kind));
    var withCreated := Put(copy, CreatedKey, Str(Timestamps.IsoFormat(attrs.entries[CreatedKey].t)));
    PutSpec(attrs, ClassKey, Str(kind));
    PutSpec(copy, CreatedKey, Str(Timestamps.IsoFormat(attrs.entries[CreatedKey].t)));
    PutSpec(withCreated, UpdatedKey, Str(Timestamps.IsoFormat(attrs.entries[UpdatedKey].t)));
  }

  lemma {:induction false} KeysWithoutAbsent(keys: seq<string>, k: string)
    requires k !in keys
    ensures KeysWithout(keys, k) == keys
  {
    if keys != [] {
      var init, last := keys[..|keys| - 1], keys[|keys| - 1];
      assert last in keys && init + [last] == keys;
      KeysWithoutAbsent(init, k);
      assert KeysWithout(keys, k) == KeysWithout(init, k) + [last];
    }
  }

  lemma KeysWithoutAppended(keys: seq<string>, k: string)
    requires k !in keys
    ensures KeysWithout(keys + [k], k) == keys
  {
    assert (keys + [k])[..|keys|] == keys;
    KeysWithoutAbsent(keys, k);
  }

  /** An exported timestamp with a fraction loads back as itself. */
  lemma LoadedIsoFormat(k: string, t: Timestamps.Timestamp)
    requires IsTimestampKey(k) && t.microsecond != 0
    ensures Readable(Str(Timestamps.IsoFormat(t)))
    ensures Loaded(k, Str(Timestamps.IsoFormat(t))) == Time(t)
  {
    Timestamps.ParseIsoFormat(t);
  }

  /** The two timestamps of `attrs` are exported as text that loads back
      as themselves. */
  ghost predicate TimesLoadBack(attrs: Dict<Value>, m: Dict<Value>) {
    forall k | IsTimestampKey(k) ::
      && k in attrs.entries && k in m.entries && Readable(m.entries[k])
      && Loaded(k, m.entries[k]) == attrs.entries[k]
  }

  /** What rebuilding from an export `m` of `attrs` reads back into `a`:
      every key of `attrs` in order, each loaded from the exported value. */
  ghost predicate ReadBack(attrs: Dict<Value>, m: Dict<Value>, a: Dict<Value>) {
    && TimesLoadBack(attrs, m)
    && (forall k | k in attrs.entries && !IsTimestampKey(k) ::
         k in m.entries && m.entries[k] == attrs.entries[k])
    && a.keys == attrs.keys
    && (forall k | k in a.entries ::
         k in m.entries && (IsTimestampKey(k) ==> Readable(m.entries[k])) && a.entries[k] == Loaded(k, m.entries[k]))
  }

  lemma ReadBackSame(attrs: Dict<Value>, m: Dict<Value>, a: Dict<Value>)
    requires ReadBack(attrs, m, a)
    ensures a == attrs
  {
    forall k | k in a.entries
      ensures k in attrs.entries && a.entries[k] == attrs.entries[k]
    {
      assert k in attrs.keys;
    }
    assert forall k :: k in attrs.entries <==> k in a.entries;
    assert a.entries == attrs.entries;
  }

  /** Calling the constructor on a map that holds `__class__`: the keyword
      branch, unless a `self` key fails the binding. */
  lemma InitWithClass(kwargs: Dict<Value>, mint: Mint)
    requires ClassKey in kwargs.entries
    ensures Init(kwargs, mint) == if SelfKey in kwargs.entries then Err(TypeError) else FromKwargs(kwargs)
  {
    assert kwargs.keys != [];
  }

  /** Rebuilding from a map laid out as `to_dict()` lays out `attrs`, with
      timestamps that load back, gives `attrs`, unless `attrs` holds a
      `self` attribute, which the call cannot bind. */
  lemma ReloadExported(attrs: Dict<Value>, m: Dict<Value>, mint: Mint)
    requires ClassKey !in attrs.entries
    requires m.keys == attrs.keys + [ClassKey]
    requires TimesLoadBack(attrs, m)
    requires forall k | k in attrs.entries && k != ClassKey && !IsTimestampKey(k) :: m.entries[k] == attrs.entries[k]
    ensures Init(m, mint) == if SelfKey in attrs.entries then Err(TypeError) else Ok(attrs)
  {
    SelfKeyDistinct();
    assert ClassKey in m.keys && (SelfKey in m.keys <==> SelfKey in attrs.keys);
    InitWithClass(m, mint);
    if SelfKey in attrs.entries {
      return;
    }
    assert forall k | k in m.entries && IsTimestampKey(k) :: Readable(m.entries[k]);
    FromKwargsSpec(m);
    var a := FromKwargs(m).value;
    KeysWithoutAppended(attrs.keys, ClassKey);
    ReadBackSame(attrs, m, a);
  }

  /** Rebuilding from an exported map whose timestamps both parse back. */
  lemma ExportRoundTripFraction(kind: string, attrs: Dict<Value>, mint: Mint)
    requires HasTime(attrs, CreatedKey) && HasTime(attrs, UpdatedKey)
    requires ClassKey !in attrs.entries
    requires attrs.entries[CreatedKey].t.microsecond != 0 && attrs.entries[UpdatedKey].t.microsecond != 0
    ensures Export(kind, attrs).Ok?
    ensures Init(Export(kind, attrs).value, mint) == if SelfKey in attrs.entries then Err(TypeError) else Ok(attrs)
  {
    var m := Export(kind, attrs).value;
    ExportLoadsBack(kind, attrs, m);
    ReloadExported(attrs, m, mint);
  }

  /** The export of a record whose timestamps both have a fraction is laid
      out as `ReloadExported` reads it back. */
  lemma ExportLoadsBack(kind: string, attrs: Dict<Value>, m: Dict<Value>)
    requires HasTime(attrs, CreatedKey) && HasTime(attrs, UpdatedKey)
    requires ClassKey !in attrs.entries
    requires attrs.entries[CreatedKey].t.microsecond != 0 && attrs.entries[UpdatedKey].t.microsecond != 0
    requires Export(kind, attrs) == Ok(m)
    ensures m.keys == attrs.keys + [ClassKey]
    ensures TimesLoadBack(attrs, m)
    ensures forall k | k in attrs.entries && k != ClassKey && !IsTimestampKey(k) :: m.entries[k] == attrs.entries[k]
  {
    ExportSpec(kind, attrs);
    LoadedIsoFormat(CreatedKey, attrs.entries[CreatedKey].t);
    LoadedIsoFormat(UpdatedKey, attrs.entries[UpdatedKey].t);
  }

  /** Rebuilding from an exported map with a whole-second timestamp. */
  lemma ExportRoundTripWholeSecond(kind: string, attrs: Dict<Value>, mint: Mint)
    requires HasTime(attrs, CreatedKey) && HasTime(attrs, UpdatedKey)
    requires attrs.entries[CreatedKey].t.microsecond == 0 || attrs.entries[UpdatedKey].t.microsecond == 0
    ensures Export(kind, attrs).Ok?
    ensures Init(Export(kind, attrs).value, mint) == Err(if SelfKey in attrs.entries then TypeError else ValueError)
  {
    var m := Export(kind, attrs).value;
    ExportSpec(kind, attrs);
    SelfKeyDistinct();
    assert ClassKey in m.keys && (SelfKey in m.keys <==> SelfKey in attrs.keys);
    InitWithClass(m, mint);
    if SelfKey in attrs.entries {
      return;
    }
    var k := if attrs.entries[CreatedKey].t.microsecond == 0 then CreatedKey else UpdatedKey;
    Timestamps.ParseIsoFormatWholeSecond(attrs.entries[k].t);
    assert k in m.entries && !Readable(m.entries[k]);
    FromKwargsSpec(m);
    var f := FirstUnreadable(m, |m.keys|);
    assert m.entries[f].Str?;
  }

  /** The export/import round trip: rebuilding a record from its `to_dict()`
      map gives back its instance dict (same id, same timestamps, every other
      attribute with its type, and no `__class__`) exactly when it has no
      `self` attribute and neither timestamp falls on a whole second. A
      `self` attribute makes the call raise TypeError; otherwise
      `isoformat()` drops a zero fraction and the rebuild raises ValueError. */
  lemma ExportRoundTrip(kind: string, attrs: Dict<Value>, mint: Mint)
    requires HasTime(attrs, CreatedKey) && HasTime(attrs, UpdatedKey)
    requires ClassKey !in attrs.entries
    ensures Export(kind, attrs).Ok?
    ensures Init(Export(kind, attrs).value, mint) ==
      if SelfKey in attrs.entries then Err(TypeError)
      else if attrs.entries[CreatedKey].t.microsecond != 0 && attrs.entries[UpdatedKey].t.microsecond != 0
      then Ok(attrs) else Err(ValueError)
  {
    if attrs.entries[CreatedKey].t.microsecond != 0 && attrs.entries[UpdatedKey].t.microsecond != 0 {
      ExportRoundTripFraction(kind, attrs, mint);
    } else {
      ExportRoundTripWholeSecond(kind, attrs, mint);
    }
  }

  /** A fresh record's `to_dict()` holds exactly `id`, `created_at`,
      `updated_at` and `__class__`, in that order, with the timestamps as ISO
      text. */
  lemma FreshExport(kind: string, m: Mint)
    ensures Export(kind, FreshAttrs(m)).Ok?
    ensures
      var r := Export(kind, FreshAttrs(m)).value;
      && r.keys == [IdKey, CreatedKey, UpdatedKey, ClassKey]
      && r.entries[IdKey] == Str(m.id)
      && r.entries[CreatedKey] == Str(Timestamps.IsoFormat(m.created))
      && r.entries[UpdatedKey] == Str(Timestamps.IsoFormat(m.updated))
      && r.entries[ClassKey] == Str(kind)
  {
    ReservedKeysDistinct();
    FreshLayout(m);
    var a := FreshAttrs(m);
    ExportSpec(kind, a);
    var r := Export(kind, a).value;
    assert r.keys == [IdKey, CreatedKey, UpdatedKey, ClassKey] by {
      assert ClassKey !in a.keys;
      assert a.keys + [ClassKey] == [IdKey, CreatedKey, UpdatedKey, ClassKey];
    }
    assert r.entries[IdKey] == a.entries[IdKey] by {
      assert IdKey in a.entries && !IsTimestampKey(IdKey);
    }
  }

  /** `__str__()`: `[<class>] (<id>) <repr of the instance dict>`, the id
      written with `str()`; AttributeError when the record has no `id`. */
  function Render(kind: string, attrs: Dict<Value>): (r: Result<string>)
    ensures r.Ok? <==> IdKey in attrs.entries
    ensures r.Err? ==> r.error == AttributeError
    ensures r.Ok? ==>
      var head := "[" + kind + "] (";
      |head| < |r.value| && r.value[..|head|] == head && r.value[|r.value| - 1] == '}'
  {
    if IdKey !in attrs.entries then Err(AttributeError)
    else Ok("[" + kind + "] (" + StrOf(attrs.entries[IdKey]) + ") " + DictRepr(attrs))
  }

  /** Where the entries of a fresh record's instance dict stand. */
  lemma FreshLayout(m: Mint)
    ensures FreshAttrs(m).keys == [IdKey, CreatedKey, UpdatedKey]
    ensures FreshAttrs(m).entries[IdKey] == Str(m.id)
    ensures FreshAttrs(m).entries[CreatedKey] == Time(m.created)
    ensures FreshAttrs(m).entries[UpdatedKey] == Time(m.updated)
  {
    ReservedKeysDistinct();
  }

  lemma ReservedKeyReprs()
    ensures StrRepr(IdKey) == "'id'"
    ensures StrRepr(CreatedKey) == "'created_at'"
    ensures StrRepr(UpdatedKey) == "'updated_at'"
  {
    StrReprPlain(IdKey);
    StrReprPlain(CreatedKey);
    StrReprPlain(UpdatedKey);
  }

  /** Regrouping the pieces of a fresh record's rendering into one text. */
  lemma FreshRenderingText(k: string, i: string, c: string, u: string)
    ensures "[" + k + "] (" + i + ") "
            + ("{" + ("'id'" + ": " + ("'" + i + "'") + ", " + ("'created_at'" + ": " + c)
                      + ", " + ("'updated_at'" + ": " + u)) + "}")
         == "[" + k + "] (" + i + ") {'id': '" + i + "', 'created_at': " + c + ", 'updated_at': " + u + "}"
  {
  }

  /** The rendering of a fresh record whose id is plain text:
      `[<class>] (<id>) {'id': '<id>', 'created_at': datetime.datetime(...),
      'updated_at': datetime.datetime(...)}`. */
  lemma RenderFresh(kind: string, m: Mint)
    requires forall i :: 0 <= i < |m.id| ==> Plain(m.id[i])
    ensures Render(kind, FreshAttrs(m)) == Ok(
      "[" + kind + "] (" + m.id + ") {'id': '" + m.id + "', 'created_at': "
      + Timestamps.Repr(m.created) + ", 'updated_at': " + Timestamps.Repr(m.updated) + "}")
  {
    FreshLayout(m);
    PairsReprOfThree(IdKey, CreatedKey, UpdatedKey, FreshAttrs(m).entries);
    ReservedKeyReprs();
    StrReprPlain(m.id);
    FreshRenderingText(kind, m.id, Timestamps.Repr(m.created), Timestamps.Repr(m.updated));
  }
}
