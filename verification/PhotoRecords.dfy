/** `photoTimestampValues` and `photoTimestampRecord`: timestamp fields of whole records. */
module PhotoRecords {
  import opened Prelude
  import opened Calendar
  import opened PhotoTimestamps

  type Row = map<string, Value>

  /** A missing key reads as undefined. */
  function Get(r: Row, field: string): Value {
    if field in r then r[field] else Undefined
  }

  predicate Blank(v: Value) {
    v.Null? || v.Undefined?
  }

  predicate Converts(v: Value, strict: bool) {
    Blank(v) || TimestampDate(v, strict).Some?
  }

  /** What happens to a listed field on the way in; the source throws unless `Converts`. */
  function Native(v: Value, strict: bool): Value
    requires Converts(v, strict)
  {
    if Blank(v) then v else DateV(TimestampDate(v, strict))
  }

  predicate Writes(v: Value) {
    v.DateV? ==> v.time.Some?
  }

  /** What happens to a listed field on the way out. */
  function Written(v: Value): Value
    requires Writes(v)
  {
    if v.DateV? then Text(IsoString(v.time.value)) else v
  }

  /** `after` is `before` with exactly the listed fields converted inwards, and no field added. */
  ghost predicate ListedMadeNative(before: Row, after: Row, fields: seq<string>, strict: bool) {
    && after.Keys == before.Keys
    && forall g | g in before ::
      if g in fields then Converts(before[g], strict) && after[g] == Native(before[g], strict)
      else after[g] == before[g]
  }

  ghost predicate ListedWritten(before: Row, after: Row, fields: seq<string>) {
    && after.Keys == before.Keys
    && forall g | g in before ::
      if g in fields then Writes(before[g]) && after[g] == Written(before[g]) else after[g] == before[g]
  }

  /** Field `i` is the first listed one that does not convert. */
  ghost predicate FirstFailure(row: Row, fields: seq<string>, i: nat, strict: bool) {
    && i < |fields| && !Converts(Get(row, fields[i]), strict)
    && forall j | 0 <= j < i :: Converts(Get(row, fields[j]), strict)
  }

  lemma NoneListed(row: Row, strict: bool)
    ensures ListedMadeNative(row, row, [], strict) && ListedWritten(row, row, [])
  {
  }

  lemma NativeIsFixed(v: Value, strict: bool)
    requires Converts(v, strict)
    ensures Converts(Native(v, strict), strict) && Native(Native(v, strict), strict) == Native(v, strict)
  {
  }

  /** One turn of the loop: what is read back from the copy decides as the original would. */
  lemma MakeOneNative(before: Row, mid: Row, done: seq<string>, field: string, strict: bool)
    requires ListedMadeNative(before, mid, done, strict)
    ensures Converts(Get(mid, field), strict) <==> Converts(Get(before, field), strict)
    ensures Converts(Get(mid, field), strict) ==>
      var v := Get(mid, field);
      ListedMadeNative(before, if Blank(v) then mid else mid[field := Native(v, strict)], done + [field], strict)
  {
    hide TimestampDate;
    if field in before && field in done {
      NativeIsFixed(before[field], strict);
    }
  }

  lemma WriteOne(before: Row, mid: Row, done: seq<string>, field: string)
    requires ListedWritten(before, mid, done)
    ensures Writes(Get(mid, field)) <==> Writes(Get(before, field))
    ensures Writes(Get(mid, field)) ==>
      var v := Get(mid, field);
      ListedWritten(before, if v.DateV? then mid[field := Written(v)] else mid, done + [field])
  {
    hide IsoString;
  }

  /** In date mode every listed field becomes a native date or stays blank; the error names the first that cannot. */
  method PhotoTimestampValues(values: Row, fields: seq<string>, dateMode: bool, strict: bool)
    returns (r: Result<Row, string>)
    ensures !dateMode ==> r == Ok(values)
    ensures dateMode && r.Ok? ==> ListedMadeNative(values, r.value, fields, strict)
    ensures dateMode ==> (r.Ok? <==> forall i | 0 <= i < |fields| :: Converts(Get(values, fields[i]), strict))
    ensures r.Err? ==> exists i: nat :: FirstFailure(values, fields, i, strict) && r.error == fields[i]
  {
    if !dateMode {
      return Ok(values);
    }
    NoneListed(values, strict);
    hide TimestampDate, ListedMadeNative;
    var result := values;
    for i := 0 to |fields|
      invariant ListedMadeNative(values, result, fields[..i], strict)
      invariant forall j | 0 <= j < i :: Converts(Get(values, fields[j]), strict)
    {
      var field := fields[i];
      var v := Get(result, field);
      MakeOneNative(values, result, fields[..i], field, strict);
      if !Blank(v) {
        var date := TimestampDate(v, strict);
        if date == None {
          assert FirstFailure(values, fields, i, strict);
          return Err(field);
        }
        result := result[field := DateV(date)];
      }
      assert fields[..i + 1] == fields[..i] + [field];
    }
    assert fields[..|fields|] == fields;
    r := Ok(result);
  }

  /** The loop of `photoTimestampRecord`. */
  method WriteFields(row: Row, fields: seq<string>) returns (r: Result<Row, string>)
    ensures r.Ok? ==> ListedWritten(row, r.value, fields)
    ensures r.Ok? <==> forall i | 0 <= i < |fields| :: Writes(Get(row, fields[i]))
  {
    NoneListed(row, false);
    hide ListedWritten, IsoString, ListedMadeNative, TimestampDate;
    var result := row;
    for i := 0 to |fields|
      invariant ListedWritten(row, result, fields[..i])
      invariant forall j | 0 <= j < i :: Writes(Get(row, fields[j]))
    {
      var field := fields[i];
      var v := Get(result, field);
      WriteOne(row, result, fields[..i], field);
      if v.DateV? {
        if v.time == None {
          assert !Writes(Get(row, fields[i]));
          return Err(field);
        }
        result := result[field := Text(IsoString(v.time.value))];
      }
      assert fields[..i + 1] == fields[..i] + [field];
    }
    assert fields[..|fields|] == fields;
    r := Ok(result);
  }

  /** Every listed native date becomes its ISO text; everything else, an absent row too, is left alone. */
  method PhotoTimestampRecord(row: Option<Row>, fields: seq<string>) returns (r: Result<Option<Row>, string>)
    ensures row == None ==> r == Ok(None)
    ensures row.Some? && r.Ok? ==> r.value.Some? && ListedWritten(row.value, r.value.value, fields)
    ensures row.Some? ==> (r.Ok? <==> forall i | 0 <= i < |fields| :: Writes(Get(row.value, fields[i])))
  {
    if row == None {
      return Ok(None);
    }
    hide ListedWritten, Get, Writes;
    var written := WriteFields(row.value, fields);
    match written
    case Ok(result) => r := Ok(Some(result));
    case Err(field) => r := Err(field);
  }

  /** A listed field that the round trip must give back as it was. */
  predicate RoundTrips(v: Value) {
    Blank(v) || (v.Text? && Canonical(v.text) && Acceptable(v.text))
  }

  /**
   Values then record: a row whose listed fields are blank or canonical UTC texts comes
   back unchanged, whatever its other fields hold and whichever engine parses.
   */
  lemma ValuesThenRecordIsIdentity(values: Row, native: Row, back: Row, fields: seq<string>, strict: bool)
    requires forall g | g in values && g in fields :: RoundTrips(values[g])
    requires ListedMadeNative(values, native, fields, strict) && ListedWritten(native, back, fields)
    ensures back == values
  {
    forall g | g in values ensures back[g] == values[g] {
      if g in fields && values[g].Text? {
        AcceptsExactly(values[g].text, strict);
        CanonicalTextSurvives(values[g].text);
      }
    }
  }

  /** The two adapters run one after the other on such a row both succeed and give it back. */
  method RoundTrip(values: Row, fields: seq<string>, strict: bool) returns (back: Result<Option<Row>, string>)
    requires forall g | g in values && g in fields :: RoundTrips(values[g])
    ensures back == Ok(Some(values))
  {
    forall i | 0 <= i < |fields| && fields[i] in values && values[fields[i]].Text?
      ensures Converts(values[fields[i]], strict)
    {
      AcceptsExactly(values[fields[i]].text, strict);
    }
    hide TimestampDate, IsoString, Canonical, Acceptable;
    var native := PhotoTimestampValues(values, fields, true, strict);
    assert forall g | g in fields && g in native.value :: Writes(native.value[g]);
    back := PhotoTimestampRecord(Some(native.value), fields);
    ValuesThenRecordIsIdentity(values, native.value, back.value.value, fields, strict);
  }

  /**
   A listed text with any offset comes back as the canonical UTC text of the same instant
   when that instant has a four-digit year.
   */
  lemma OffsetBecomesUtc(values: Row, native: Row, back: Row, fields: seq<string>, field: string, strict: bool)
    requires ListedMadeNative(values, native, fields, strict) && ListedWritten(native, back, fields)
    requires field in values && field in fields && values[field].Text? && Acceptable(values[field].text)
    requires FourDigitYear(Instant(Read(values[field].text)))
    ensures back[field].Text? && Canonical(back[field].text) && Acceptable(back[field].text)
    ensures Instant(Read(back[field].text)) == Instant(Read(values[field].text))
  {
    var s := values[field].text;
    assert Shape(s);
    hide TimestampDate, IsoString, Canonical, Acceptable, Instant, Read, CivilOf, FourDigitYear, Shape;
    AcceptsExactly(s, strict);
    var t := Instant(Read(s));
    assert back[field] == Text(IsoString(t));
    IsoReads(t);
    DateSurvivesTextIff(t, strict);
    AcceptsExactly(IsoString(t), strict);
  }
}
