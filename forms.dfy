/**
 * The cross-field check of the theme customization form: five opacity percentages and two font
 * sizes are range-checked after the per-field cleaning, and each violation is attached to its
 * field, which also drops that field from the cleaned data.
 */
module ThemeForms {
  import opened Wrappers

  /** One error attached to one field. */
  datatype FieldError = FieldError(field: string, message: string)

  const OpacityFields: seq<string> :=
    ["background_opacity", "navbar_opacity", "card_background_opacity", "card_border_opacity", "orb_opacity"]
  const BaseFontField: string := "font_size_base"
  const HeadingFontField: string := "font_size_heading"

  const OpacityMessage: string := "Value must be between 0 and 100"
  const BaseFontMessage: string := "Base font size must be between 12 and 24 pixels"
  const HeadingFontMessage: string := "Heading font size must be between 24 and 64 pixels"

  /** `cleaned_data.get(field)`: a missing key and a stored `None` both read as `None`. */
  function Get(data: map<string, Option<int>>, field: string): Option<int> {
    if field in data then data[field] else None
  }

  /** The opacity test: a value is present and lies outside 0..100. */
  predicate OpacityRejected(v: Option<int>) {
    v.Some? && (v.value < 0 || v.value > 100)
  }

  /**
   * The font-size test `if size and (size < lo or size > hi)`: `None` and `0` are falsy in
   * Python, so neither is checked.
   */
  predicate FontRejected(v: Option<int>, lo: int, hi: int) {
    v.Some? && v.value != 0 && (v.value < lo || v.value > hi)
  }

  /** The errors the opacity loop raises over `fields`, in loop order. */
  function OpacityErrors(data: map<string, Option<int>>, fields: seq<string>): (r: seq<FieldError>)
    ensures |r| <= |fields|
    ensures forall e :: e in r ==> e.field in fields && e.message == OpacityMessage
  {
    if fields == [] then []
    else
      var n := |fields| - 1;
      var rest := OpacityErrors(data, fields[..n]);
      assert forall e :: e in rest ==> e.field in fields by {
        forall e | e in rest ensures e.field in fields {
          var j :| 0 <= j < n && fields[..n][j] == e.field;
          assert fields[j] == e.field;
        }
      }
      rest + OpacityError(data, fields[n])
  }

  /** The error one pass of the opacity loop raises. */
  function OpacityError(data: map<string, Option<int>>, field: string): seq<FieldError> {
    if OpacityRejected(Get(data, field)) then [FieldError(field, OpacityMessage)] else []
  }

  /** The errors one font-size check raises. */
  function FontErrors(data: map<string, Option<int>>, field: string, lo: int, hi: int, message: string): seq<FieldError> {
    if FontRejected(Get(data, field), lo, hi) then [FieldError(field, message)] else []
  }

  /** Every error `clean` raises on the data it starts from, in the order it raises them. */
  function CleanErrors(data: map<string, Option<int>>): seq<FieldError> {
    OpacityErrors(data, OpacityFields)
    + FontErrors(data, BaseFontField, 12, 24, BaseFontMessage)
    + FontErrors(data, HeadingFontField, 24, 64, HeadingFontMessage)
  }

  /** The fields that receive at least one error. */
  function Flagged(errs: seq<FieldError>): set<string> {
    set e | e in errs :: e.field
  }

  /** `add_error` for each error in turn: append its message to its field's list. */
  function Record(errors: map<string, seq<string>>, errs: seq<FieldError>): map<string, seq<string>> {
    if errs == [] then errors
    else
      var n := |errs| - 1;
      var before := Record(errors, errs[..n]);
      var e := errs[n];
      before[e.field := (if e.field in before then before[e.field] else []) + [e.message]]
  }

  /** The cleaned data after `clean`: every field that received an error is removed. */
  function CleanedAfter(data: map<string, Option<int>>): map<string, Option<int>> {
    data - Flagged(CleanErrors(data))
  }

  /** Field error lists after `clean`. */
  function ErrorsAfter(data: map<string, Option<int>>, errors: map<string, seq<string>>): map<string, seq<string>> {
    Record(errors, CleanErrors(data))
  }

  lemma FlaggedAppend(a: seq<FieldError>, b: seq<FieldError>)
    ensures Flagged(a + b) == Flagged(a) + Flagged(b)
  {
    forall f | f in Flagged(a + b) ensures f in Flagged(a) + Flagged(b) {
      var e :| e in a + b && e.field == f;
    }
    forall f | f in Flagged(a) + Flagged(b) ensures f in Flagged(a + b) {
      if f in Flagged(a) {
        var e :| e in a && e.field == f;
        assert e in a + b;
      } else {
        var e :| e in b && e.field == f;
        assert e in a + b;
      }
    }
  }

  lemma RemoveTwice(m: map<string, Option<int>>, a: set<string>, b: set<string>)
    ensures (m - a) - b == m - (a + b)
  {
  }

  lemma {:induction false} RecordAppend(errors: map<string, seq<string>>, a: seq<FieldError>, b: seq<FieldError>)
    ensures Record(errors, a + b) == Record(Record(errors, a), b)
  {
    if b != [] {
      var n := |b| - 1;
      assert (a + b)[..|a| + n] == a + b[..n];
      RecordAppend(errors, a, b[..n]);
    } else {
      assert a + b == a;
    }
  }

  // ---------------------------------------------------------------------------
  // Properties of the check
  // ---------------------------------------------------------------------------

  lemma {:induction false} OpacityErrorsIff(data: map<string, Option<int>>, fields: seq<string>, f: string)
    requires f in fields
    ensures f in Flagged(OpacityErrors(data, fields)) <==> OpacityRejected(Get(data, f))
  {
    var n := |fields| - 1;
    var rest := OpacityErrors(data, fields[..n]);
    var last := OpacityError(data, fields[n]);
    assert OpacityErrors(data, fields) == rest + last;
    FlaggedAppend(rest, last);
    if f in fields[..n] {
      OpacityErrorsIff(data, fields[..n], f);
      if fields[n] == f {
        assert Flagged(last) == (if OpacityRejected(Get(data, f)) then {f} else {});
      } else {
        assert f !in Flagged(last);
      }
    } else {
      assert fields == fields[..n] + [fields[n]];
      assert fields[n] == f;
      assert f !in Flagged(rest);
      assert Flagged(last) == (if OpacityRejected(Get(data, f)) then {f} else {});
    }
  }

  lemma FlaggedOfOpacity(data: map<string, Option<int>>, f: string)
    ensures f in Flagged(OpacityErrors(data, OpacityFields)) ==> f in OpacityFields
  {
  }

  /** The flagged fields of `clean`, check by check. */
  lemma CleanFlagged(data: map<string, Option<int>>)
    ensures Flagged(CleanErrors(data)) ==
      Flagged(OpacityErrors(data, OpacityFields))
      + Flagged(FontErrors(data, BaseFontField, 12, 24, BaseFontMessage))
      + Flagged(FontErrors(data, HeadingFontField, 24, 64, HeadingFontMessage))
  {
    var ops := OpacityErrors(data, OpacityFields);
    var base := FontErrors(data, BaseFontField, 12, 24, BaseFontMessage);
    var heading := FontErrors(data, HeadingFontField, 24, 64, HeadingFontMessage);
    FlaggedAppend(ops, base);
    FlaggedAppend(ops + base, heading);
  }

  /** An opacity field is flagged exactly when it holds a value outside 0..100. */
  lemma OpacityFlaggedIff(data: map<string, Option<int>>, f: string)
    requires f in OpacityFields
    ensures f in Flagged(CleanErrors(data)) <==> OpacityRejected(Get(data, f))
  {
    CleanFlagged(data);
    OpacityErrorsIff(data, OpacityFields, f);
  }

  /** The base font size is flagged exactly when it is non-zero and outside 12..24. */
  lemma BaseFontFlaggedIff(data: map<string, Option<int>>)
    ensures BaseFontField in Flagged(CleanErrors(data)) <==> FontRejected(Get(data, BaseFontField), 12, 24)
  {
    CleanFlagged(data);
    FlaggedOfOpacity(data, BaseFontField);
  }

  /** The heading font size is flagged exactly when it is non-zero and outside 24..64. */
  lemma HeadingFontFlaggedIff(data: map<string, Option<int>>)
    ensures HeadingFontField in Flagged(CleanErrors(data)) <==> FontRejected(Get(data, HeadingFontField), 24, 64)
  {
    CleanFlagged(data);
    FlaggedOfOpacity(data, HeadingFontField);
  }

  /** A field no check looks at is never flagged. */
  lemma OtherFieldsNeverFlagged(data: map<string, Option<int>>, f: string)
    requires f !in OpacityFields && f != BaseFontField && f != HeadingFontField
    ensures f !in Flagged(CleanErrors(data))
  {
    CleanFlagged(data);
    FlaggedOfOpacity(data, f);
  }

  /**
   * The falsy-zero gap: a base font size of 0 is outside 12..24 and still passes, where the
   * opacity check, which tests `is not None`, would reject an out-of-range 0.
   */
  lemma ZeroBaseFontPasses(data: map<string, Option<int>>)
    requires Get(data, BaseFontField) == Some(0)
    ensures BaseFontField !in Flagged(CleanErrors(data))
    ensures BaseFontField in CleanedAfter(data) && CleanedAfter(data)[BaseFontField] == Some(0)
  {
    BaseFontFlaggedIff(data);
  }

  /** Every checked field left in the cleaned data holds a value its check accepts. */
  lemma CleanedDataInRange(data: map<string, Option<int>>)
    ensures forall f :: f in OpacityFields && f in CleanedAfter(data) ==> !OpacityRejected(CleanedAfter(data)[f])
    ensures BaseFontField in CleanedAfter(data) ==> !FontRejected(CleanedAfter(data)[BaseFontField], 12, 24)
    ensures HeadingFontField in CleanedAfter(data) ==> !FontRejected(CleanedAfter(data)[HeadingFontField], 24, 64)
  {
    forall f | f in OpacityFields && f in CleanedAfter(data)
      ensures !OpacityRejected(CleanedAfter(data)[f])
    {
      OpacityFlaggedIff(data, f);
    }
    BaseFontFlaggedIff(data);
    HeadingFontFlaggedIff(data);
  }

  /** Cleaning never touches a surviving value: the result is a restriction of the input. */
  lemma CleanedKeepsValues(data: map<string, Option<int>>)
    ensures forall f :: f in CleanedAfter(data) ==> f in data && CleanedAfter(data)[f] == data[f]
    ensures forall f :: f in data && f !in Flagged(CleanErrors(data)) ==> f in CleanedAfter(data)
  {
  }

  lemma {:induction false} OpacityErrorsNone(data: map<string, Option<int>>, fields: seq<string>)
    requires forall f :: f in fields ==> !OpacityRejected(Get(data, f))
    ensures OpacityErrors(data, fields) == []
  {
    if fields != [] {
      var n := |fields| - 1;
      assert fields[n] in fields;
      assert forall f :: f in fields[..n] ==> f in fields;
      OpacityErrorsNone(data, fields[..n]);
    }
  }

  /** Running the check again on its own output raises nothing. */
  lemma CleanIsIdempotent(data: map<string, Option<int>>)
    ensures CleanErrors(CleanedAfter(data)) == []
    ensures CleanedAfter(CleanedAfter(data)) == CleanedAfter(data)
  {
    var c := CleanedAfter(data);
    forall f | f in OpacityFields ensures !OpacityRejected(Get(c, f)) {
      OpacityFlaggedIff(data, f);
    }
    OpacityErrorsNone(c, OpacityFields);
    BaseFontFlaggedIff(data);
    HeadingFontFlaggedIff(data);
    assert FontErrors(c, BaseFontField, 12, 24, BaseFontMessage) == [];
    assert FontErrors(c, HeadingFontField, 24, 64, HeadingFontMessage) == [];
  }

  /** The five opacity fields are distinct names. */
  lemma OpacityFieldsDistinct()
    ensures forall i, j :: 0 <= i < j < |OpacityFields| ==> OpacityFields[i] != OpacityFields[j]
  {
    assert |OpacityFields[0]| == 18 && |OpacityFields[1]| == 14 && |OpacityFields[2]| == 23;
    assert |OpacityFields[3]| == 19 && |OpacityFields[4]| == 11;
  }

  /** One more pass of the opacity loop appends its error, on a field not flagged so far. */
  lemma OpacityStep(data: map<string, Option<int>>, i: nat)
    requires i < |OpacityFields|
    ensures OpacityErrors(data, OpacityFields[..i + 1])
      == OpacityErrors(data, OpacityFields[..i]) + OpacityError(data, OpacityFields[i])
    ensures OpacityFields[i] !in Flagged(OpacityErrors(data, OpacityFields[..i]))
  {
    assert OpacityFields[..i + 1][..i] == OpacityFields[..i];
    OpacityFieldsDistinct();
    assert OpacityFields[i] !in OpacityFields[..i];
  }

  /** Removing other keys leaves a field's value as it was. */
  lemma GetOutsideRemoved(data: map<string, Option<int>>, removed: set<string>, f: string)
    requires f !in removed
    ensures Get(data - removed, f) == Get(data, f)
  {
  }

  /** The bound form: the cleaned data and the field error lists, as `clean` changes them. */
  class ThemeCustomizationForm {
    var cleanedData: map<string, Option<int>>
    var errors: map<string, seq<string>>

    /** The form after per-field cleaning, before `clean` runs. */
    constructor (data: map<string, Option<int>>, fieldErrors: map<string, seq<string>>)
      ensures cleanedData == data && errors == fieldErrors
    {
      cleanedData := data;
      errors := fieldErrors;
    }

    /** `add_error(field, message)`: record the message and drop the field from the cleaned data. */
    method AddError(field: string, message: string)
      modifies this
      ensures errors == old(errors)[field := (if field in old(errors) then old(errors)[field] else []) + [message]]
      ensures cleanedData == old(cleanedData) - {field}
    {
      var existing := if field in errors then errors[field] else [];
      errors := errors[field := existing + [message]];
      cleanedData := cleanedData - {field};
    }

    /** One font-size check: a present, truthy size outside `lo..hi` gets `message`. */
    method CheckFontSize(field: string, lo: int, hi: int, message: string)
      modifies this
      ensures errors == Record(old(errors), FontErrors(old(cleanedData), field, lo, hi, message))
      ensures cleanedData == old(cleanedData) - Flagged(FontErrors(old(cleanedData), field, lo, hi, message))
    {
      var size := Get(cleanedData, field);
      if size.Some? && size.value != 0 && (size.value < lo || size.value > hi) {
        AddError(field, message);
        assert FontErrors(old(cleanedData), field, lo, hi, message) == [FieldError(field, message)];
        assert Flagged([FieldError(field, message)]) == {field};
        assert [FieldError(field, message)][..0] == [];
      } else {
        assert Flagged([]) == {};
      }
    }

    /** One pass of the opacity loop: a present value outside 0..100 gets the opacity message. */
    method CheckOpacity(field: string)
      modifies this
      ensures errors == Record(old(errors), OpacityError(old(cleanedData), field))
      ensures cleanedData == old(cleanedData) - Flagged(OpacityError(old(cleanedData), field))
    {
      var value := Get(cleanedData, field);
      if value.Some? && (value.value < 0 || value.value > 100) {
        AddError(field, OpacityMessage);
        assert Flagged([FieldError(field, OpacityMessage)]) == {field};
        assert [FieldError(field, OpacityMessage)][..0] == [];
      } else {
        assert Flagged([]) == {};
      }
    }

    /** The opacity loop of `clean`. */
    method CheckOpacities()
      modifies this
      ensures errors == Record(old(errors), OpacityErrors(old(cleanedData), OpacityFields))
      ensures cleanedData == old(cleanedData) - Flagged(OpacityErrors(old(cleanedData), OpacityFields))
    {
      var data := cleanedData;
      var i := 0;
      while i < |OpacityFields|
        invariant 0 <= i <= |OpacityFields|
        invariant cleanedData == data - Flagged(OpacityErrors(data, OpacityFields[..i]))
        invariant errors == Record(old(errors), OpacityErrors(data, OpacityFields[..i]))
      {
        var field := OpacityFields[i];
        ghost var before := OpacityErrors(data, OpacityFields[..i]);
        ghost var step := OpacityError(data, field);
        OpacityStep(data, i);
        GetOutsideRemoved(data, Flagged(before), field);
        FlaggedAppend(before, step);
        RecordAppend(old(errors), before, step);
        RemoveTwice(data, Flagged(before), Flagged(step));
        CheckOpacity(field);
        i := i + 1;
      }
      assert OpacityFields[..i] == OpacityFields;
    }

    /**
     * `clean`: range-check the opacity fields in order, then the two font sizes, and return the
     * cleaned data, which is the same dictionary the errors were removed from.
     */
    method Clean() returns (r: map<string, Option<int>>)
      modifies this
      ensures errors == ErrorsAfter(old(cleanedData), old(errors))
      ensures cleanedData == CleanedAfter(old(cleanedData))
      ensures r == cleanedData
    {
      ghost var data := cleanedData;
      ghost var ops := OpacityErrors(data, OpacityFields);
      ghost var base := FontErrors(data, BaseFontField, 12, 24, BaseFontMessage);
      ghost var heading := FontErrors(data, HeadingFontField, 24, 64, HeadingFontMessage);
      CheckOpacities();
      FlaggedOfOpacity(data, BaseFontField);
      FlaggedOfOpacity(data, HeadingFontField);
      assert Get(cleanedData, BaseFontField) == Get(data, BaseFontField);
      CheckFontSize(BaseFontField, 12, 24, BaseFontMessage);
      assert Get(cleanedData, HeadingFontField) == Get(data, HeadingFontField);
      CheckFontSize(HeadingFontField, 24, 64, HeadingFontMessage);
      RecordAppend(old(errors), ops, base);
      RecordAppend(old(errors), ops + base, heading);
      CleanFlagged(data);
      RemoveTwice(data, Flagged(ops), Flagged(base));
      RemoveTwice(data, Flagged(ops) + Flagged(base), Flagged(heading));
      r := cleanedData;
    }
  }
}
