/**
 * The part of quiz generation that runs after the model has answered: recovering a JSON array
 * from the raw response text, then keeping only well-formed questions among the first `count`
 * parsed items. The network call, the regular-expression search and the JSON parser are
 * parameters of this model.
 */
module GeminiService {
  import opened Wrappers
  import opened Text

  /** A value as Python's `json.loads` returns it. */
  datatype Json =
    | JNull
    | JBool(b: bool)
    | JNumber(n: real)
    | JString(s: string)
    | JArray(elems: seq<Json>)
    | JObject(fields: map<string, Json>)

  /** Every failure of generation; the source raises all of them as `ValueError`. */
  datatype GenerationError =
    | MalformedJson                                   // `json.JSONDecodeError`
    | UnexpectedShape                                 // the parsed value cannot be sliced
    | ItemTypeError                                   // an item's keys or fields have the wrong type
    | InsufficientQuestions(found: nat, requested: int)

  // ---------------------------------------------------------------------------
  // Recovering the JSON text
  // ---------------------------------------------------------------------------

  predicate Bracketed(s: string) {
    StartsWith(s, "[") && EndsWith(s, "]")
  }

  /** The fallback text in closed form: a bracket is added at whichever end lacks one. */
  function FallbackText(responseText: string): string {
    (if StartsWith(responseText, "[") then "" else "[")
    + responseText
    + (if EndsWith(responseText, "]") then "" else "]")
  }

  lemma FallbackTextBracketed(responseText: string)
    ensures Bracketed(FallbackText(responseText))
    ensures Bracketed(responseText) ==> FallbackText(responseText) == responseText
  {
    var r := FallbackText(responseText);
    assert r[0] == '[';
    assert r[|r| - 1] == ']';
  }

  /**
   * The text handed to the JSON parser: the regular expression's match when there is one
   * (a match of `\[\s*\{.*\}\s*\]` always begins with `[` and ends with `]`), otherwise the
   * stripped response with the missing brackets added one after the other.
   */
  method ExtractJsonText(responseText: string, jsonMatch: Option<string>) returns (jsonStr: string)
    requires jsonMatch.Some? ==> Bracketed(jsonMatch.value)
    ensures jsonMatch.Some? ==> jsonStr == jsonMatch.value
    ensures jsonMatch.None? ==> jsonStr == FallbackText(responseText)
    ensures Bracketed(jsonStr)
  {
    if jsonMatch.Some? {
      jsonStr := jsonMatch.value;
    } else {
      jsonStr := responseText;
      if !StartsWith(jsonStr, "[") {
        jsonStr := "[" + jsonStr;
      }
      if !EndsWith(jsonStr, "]") {
        jsonStr := jsonStr + "]";
      }
      FallbackTextBracketed(responseText);
    }
  }

  // ---------------------------------------------------------------------------
  // Python semantics of the checks
  // ---------------------------------------------------------------------------

  /** Python's `s[:n]`, including a negative `n`, which drops elements from the end. */
  function PyPrefix<T>(s: seq<T>, n: int): (r: seq<T>)
    ensures r <= s
    ensures n >= 0 ==> |r| == if n <= |s| then n else |s|
  {
    if n >= 0 then (if n <= |s| then s[..n] else s)
    else if -n <= |s| then s[..|s| + n]
    else []
  }

  /** Python's `k in s` on strings: `k` occurs somewhere in `s`. */
  predicate IsSubstring(k: string, s: string) {
    k <= s || (s != [] && IsSubstring(k, s[1..]))
  }

  /** Python's `key in q`; `None` when `q` is not a container (a `TypeError`). */
  function Contains(q: Json, key: string): Option<bool> {
    match q
    case JObject(m) => Some(key in m)
    case JArray(a) => Some(JString(key) in a)
    case JString(s) => Some(IsSubstring(key, s))
    case _ => None
  }

  /** `all(key in q for key in keys)`, which stops at the first missing key. */
  function AllPresent(q: Json, keys: seq<string>): Option<bool> {
    if keys == [] then Some(true)
    else
      match Contains(q, keys[0])
      case None => None
      case Some(false) => Some(false)
      case Some(true) => AllPresent(q, keys[1..])
  }

  /** Python's `len(v)`; `None` for a value that has no length. */
  function PyLen(v: Json): Option<int> {
    match v
    case JString(s) => Some(|s|)
    case JArray(a) => Some(|a|)
    case JObject(m) => Some(|m|)
    case _ => None
  }

  /** Python's `0 <= v <= 3`; a boolean compares as 0 or 1, anything but a number raises. */
  function WithinOptionRange(v: Json): Option<bool> {
    match v
    case JNumber(n) => Some(0.0 <= n <= 3.0)
    case JBool(_) => Some(true)
    case _ => None
  }

  const RequiredKeys: seq<string> := ["question", "options", "correct_index", "explanation"]

  datatype Check = Keep | Drop | Raise

  /** The fate of one parsed item in the validation loop. */
  function CheckItem(q: Json): Check {
    match AllPresent(q, RequiredKeys)
    case None => Raise
    case Some(false) => Drop
    case Some(true) =>
      if !q.JObject? then Raise  // `q['options']` on a list or a string
      else
        AllPresentOnObject(q.fields, RequiredKeys);
        assert "options" in RequiredKeys && "correct_index" in RequiredKeys;
        match PyLen(q.fields["options"])
        case None => Raise
        case Some(len) =>
          if len != 4 then Drop
          else
            match WithinOptionRange(q.fields["correct_index"])
            case None => Raise
            case Some(ok) => if ok then Keep else Drop
  }

  /** A question in the shape the prompt asks for, stated without Python's evaluation order. */
  predicate WellFormedItem(q: Json) {
    && q.JObject?
    && (forall k :: k in RequiredKeys ==> k in q.fields)
    && PyLen(q.fields["options"]) == Some(4)
    && match q.fields["correct_index"]
       case JNumber(n) => 0.0 <= n <= 3.0
       case JBool(_) => true
       case _ => false
  }

  lemma {:induction false} AllPresentOnObject(m: map<string, Json>, keys: seq<string>)
    ensures AllPresent(JObject(m), keys) == Some(forall k :: k in keys ==> k in m)
  {
    if keys != [] {
      AllPresentOnObject(m, keys[1..]);
      assert forall k :: k in keys <==> k == keys[0] || k in keys[1..];
    }
  }

  /** An item survives validation exactly when it is well formed. */
  lemma CheckItemKeepsWellFormed(q: Json)
    ensures CheckItem(q) == Keep <==> WellFormedItem(q)
  {
    if q.JObject? {
      AllPresentOnObject(q.fields, RequiredKeys);
    } else {
      assert CheckItem(q) != Keep;
    }
  }

  // ---------------------------------------------------------------------------
  // Truncate, then filter
  // ---------------------------------------------------------------------------

  /** The items the loop keeps, in their original order. */
  function Kept(items: seq<Json>): (r: seq<Json>)
    ensures |r| <= |items|
    ensures forall i :: 0 <= i < |r| ==> CheckItem(r[i]) == Keep
  {
    if items == [] then []
    else
      var last := items[|items| - 1];
      Kept(items[..|items| - 1]) + (if CheckItem(last) == Keep then [last] else [])
  }

  /** The filter drops nothing that passes: every candidate the check keeps is among the kept items. */
  lemma {:induction false} KeptKeepsEveryPassing(items: seq<Json>)
    ensures forall x :: x in items && CheckItem(x) == Keep ==> x in Kept(items)
  {
    if items != [] {
      var init := items[..|items| - 1];
      var last := items[|items| - 1];
      KeptKeepsEveryPassing(init);
      assert items == init + [last];
      assert Kept(items) == Kept(init) + (if CheckItem(last) == Keep then [last] else []);
    }
  }

  predicate AnyRaises(items: seq<Json>) {
    exists i | 0 <= i < |items| :: CheckItem(items[i]) == Raise
  }

  /** `questions[:count]`; `None` when the parsed value cannot be sliced. */
  function Candidates(parsed: Json, count: int): Option<seq<Json>> {
    match parsed
    case JArray(a) => Some(PyPrefix(a, count))
    case JString(s) => Some(PyPrefix(seq(|s|, i requires 0 <= i < |s| => JString([s[i]])), count))
    case _ => None
  }

  /** What generation yields once the response has been parsed to `parsed`. */
  function ValidationOutcome(parsed: Json, count: int): Result<seq<Json>, GenerationError> {
    match Candidates(parsed, count)
    case None => Failure(UnexpectedShape)
    case Some(items) =>
      if AnyRaises(items) then Failure(ItemTypeError)
      else
        var kept := Kept(items);
        if |kept| < count then Failure(InsufficientQuestions(|kept|, count))
        else Success(PyPrefix(kept, count))
  }

  /** The validation loop over the first `count` parsed items. */
  method ValidateQuestions(parsed: Json, count: int) returns (r: Result<seq<Json>, GenerationError>)
    ensures r == ValidationOutcome(parsed, count)
  {
    var candidates := Candidates(parsed, count);
    if candidates.None? {
      return Failure(UnexpectedShape);
    }
    var items := candidates.value;
    var validated: seq<Json> := [];
    var i := 0;
    while i < |items|
      invariant 0 <= i <= |items|
      invariant validated == Kept(items[..i])
      invariant forall j :: 0 <= j < i ==> CheckItem(items[j]) != Raise
    {
      var c := CheckItem(items[i]);
      if c == Raise {
        return Failure(ItemTypeError);
      }
      assert items[..i + 1][..i] == items[..i];
      if c == Keep {
        validated := validated + [items[i]];
      }
      i := i + 1;
    }
    assert items[..i] == items;
    if |validated| < count {
      return Failure(InsufficientQuestions(|validated|, count));
    }
    return Success(PyPrefix(validated, count));
  }

  /** Everything after the network call: recover the text, parse it, validate the items. */
  method GenerateQuizQuestions(
    responseText: string, jsonMatch: Option<string>, loads: string -> Option<Json>, count: int)
    returns (r: Result<seq<Json>, GenerationError>)
    requires jsonMatch.Some? ==> Bracketed(jsonMatch.value)
    ensures var text := if jsonMatch.Some? then jsonMatch.value else FallbackText(responseText);
      && (loads(text).None? ==> r == Failure(MalformedJson))
      && (loads(text).Some? ==> r == ValidationOutcome(loads(text).value, count))
    ensures r.Success? && count >= 0 ==>
      |r.value| == count && forall i :: 0 <= i < |r.value| ==> WellFormedItem(r.value[i])
  {
    var jsonStr := ExtractJsonText(responseText, jsonMatch);
    var parsed := loads(jsonStr);
    if parsed.None? {
      return Failure(MalformedJson);
    }
    r := ValidateQuestions(parsed.value, count);
    if r.Success? && count >= 0 {
      SuccessIsExactlyCount(parsed.value, count);
    }
  }

  // ---------------------------------------------------------------------------
  // Properties of validation
  // ---------------------------------------------------------------------------

  /** `xs` occurs in `ys` in the same order, possibly with other elements between. */
  predicate IsSubsequence<T(==)>(xs: seq<T>, ys: seq<T>) {
    xs == []
    || (ys != []
        && ((xs[|xs| - 1] == ys[|ys| - 1] && IsSubsequence(xs[..|xs| - 1], ys[..|ys| - 1]))
            || IsSubsequence(xs, ys[..|ys| - 1])))
  }

  lemma {:induction false} KeptIsSubsequence(items: seq<Json>)
    ensures IsSubsequence(Kept(items), items)
  {
    if items != [] {
      var init := items[..|items| - 1];
      var last := items[|items| - 1];
      KeptIsSubsequence(init);
      if CheckItem(last) == Keep {
        var k := Kept(items);
        assert k == Kept(init) + [last];
        assert k[|k| - 1] == last && k[..|k| - 1] == Kept(init);
      } else {
        assert Kept(items) == Kept(init);
        assert IsSubsequence(Kept(init), items[..|items| - 1]);
      }
    }
  }

  lemma {:induction false} KeptAllWhenAllKept(items: seq<Json>)
    requires forall i :: 0 <= i < |items| ==> CheckItem(items[i]) == Keep
    ensures Kept(items) == items
  {
    if items != [] {
      KeptAllWhenAllKept(items[..|items| - 1]);
    }
  }

  /**
   * A successful generation returns exactly `count` well-formed items, in their original order,
   * all taken from the first `count` parsed items.
   */
  lemma SuccessIsExactlyCount(parsed: Json, count: int)
    requires count >= 0 && ValidationOutcome(parsed, count).Success?
    ensures var out := ValidationOutcome(parsed, count).value;
      && |out| == count
      && (forall i :: 0 <= i < |out| ==> WellFormedItem(out[i]))
      && IsSubsequence(out, Candidates(parsed, count).value)
  {
    var items := Candidates(parsed, count).value;
    var kept := Kept(items);
    assert |items| <= count;
    assert PyPrefix(kept, count) == kept;
    KeptIsSubsequence(items);
    forall i | 0 <= i < |kept| ensures WellFormedItem(kept[i]) {
      CheckItemKeepsWellFormed(kept[i]);
    }
  }

  /** Too few well-formed items among the first `count`: generation fails. */
  lemma TooFewKeptFails(parsed: Json, count: int)
    requires Candidates(parsed, count).Some?
    requires |Kept(Candidates(parsed, count).value)| < count
    ensures ValidationOutcome(parsed, count).Failure?
  {
  }

  /** Items after the first `count` are never looked at. */
  lemma {:induction false} OnlyFirstCountMatter(a: seq<Json>, count: nat)
    requires count <= |a|
    ensures ValidationOutcome(JArray(a), count) == ValidationOutcome(JArray(a[..count]), count)
  {
    assert PyPrefix(a[..count], count) == a[..count];
  }

  /** More well-formed items than requested: the first `count` of them, in response order. */
  lemma FirstCountOfWellFormed(a: seq<Json>, count: nat)
    requires count <= |a|
    requires forall i :: 0 <= i < |a| ==> WellFormedItem(a[i])
    ensures ValidationOutcome(JArray(a), count) == Success(a[..count])
  {
    var items := a[..count];
    forall i | 0 <= i < |items| ensures CheckItem(items[i]) == Keep {
      CheckItemKeepsWellFormed(items[i]);
    }
    KeptAllWhenAllKept(items);
    assert Candidates(JArray(a), count) == Some(items);
    assert !AnyRaises(items);
    assert PyPrefix(items, count) == items;
  }

  const SampleQuestion: Json := JObject(map[
    "question" := JString("Q"),
    "options" := JArray([JString("A"), JString("B"), JString("C"), JString("D")]),
    "correct_index" := JNumber(0.0),
    "explanation" := JString("E")])

  /**
   * Truncation comes before filtering: with one question requested, a malformed first item
   * makes generation fail although a well-formed item follows it.
   */
  lemma TruncationBeforeFiltering()
    ensures ValidationOutcome(JArray([JObject(map[]), SampleQuestion]), 1)
      == Failure(InsufficientQuestions(0, 1))
    ensures ValidationOutcome(JArray([SampleQuestion, JObject(map[])]), 1) == Success([SampleQuestion])
  {
    var bad := JObject(map[]);
    assert AllPresent(bad, RequiredKeys) == Some(false);
    assert CheckItem(bad) == Drop;
    assert [bad, SampleQuestion][..1] == [bad];
    assert Kept([bad]) == Kept([]) + [];
    assert !AnyRaises([bad]);
    AllPresentOnObject(SampleQuestion.fields, RequiredKeys);
    assert CheckItem(SampleQuestion) == Keep;
    assert [SampleQuestion, bad][..1] == [SampleQuestion];
    assert Kept([SampleQuestion]) == Kept([]) + [SampleQuestion];
    assert !AnyRaises([SampleQuestion]);
    assert Candidates(JArray([SampleQuestion, bad]), 1) == Some([SampleQuestion]);
    assert PyPrefix([SampleQuestion], 1) == [SampleQuestion];
    assert Kept([SampleQuestion]) == [SampleQuestion];
    var outcome := ValidationOutcome(JArray([SampleQuestion, bad]), 1);
    assert outcome == Success(PyPrefix(Kept([SampleQuestion]), 1));
  }
}
