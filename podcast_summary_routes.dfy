/**
  The podcast-summary router: a process-lifetime list of summaries, seeded
  with three entries, behind three handlers.

  - GET lists the summaries.
  - POST validates `textContent`, asks the script generator for a podcast
    script and appends a record holding that script.
  - DELETE removes every summary whose id matches the path parameter once it
    has been read by `parseInt` and printed back.

  The generator is not called from here: the outcome it would produce is an
  input of `Post`, and whether it was asked at all is an output.
 */
module PodcastSummaryRoutes {
  import opened JsRuntime

  datatype Option<T> = None | Some(value: T)

  /** One stored summary. The title is whatever JSON value the request carried. */
  datatype Record = Record(id: string, title: JsonValue, textContent: string)

  /** What the generator call throws: an `Error` object, or some other value. */
  datatype Thrown = ErrorInstance(message: string) | OtherValue

  /** What the generator call yields when it is made. */
  datatype Generation = Script(text: string) | Threw(thrown: Thrown)

  /** The JSON bodies the handlers send. */
  datatype Body =
    | SummaryList(podcastSummaries: seq<Record>)             // { podcastSummaries }
    | GeneratedScript(podcastScript: string)                 // { podcast_script }
    | Failure(error: string)                                 // { error }
    | FailureWithDetails(error: string, details: string)     // { error, details }
    | Deleted(message: string, remaining: seq<Record>)       // { message, podcastSummaries }

  /** An HTTP reply, or the end of the process. */
  datatype Response = Reply(status: nat, body: Body) | Exit(code: int)

  /** Longest accepted `textContent`, in UTF-16 code units. */
  const TextLimit: nat := 50000

  const MissingTextContent := "Missing or invalid 'textContent' field in JSON request body."
  const InputTooLong := "Input text too long."
  const SafetyBlocked := "Content blocked due to safety settings."
  const GenerationFailed := "Failed to generate podcast script due to an internal server error."
  const NotFound := "Podcast not found"
  const PodcastDeleted := "Podcast deleted"

  const InitialSummaries: seq<Record> := [
    Record("1", Str("Introduction to Physics"), "Basic physics concepts"),
    Record("2", Str("Advanced Mathematics"), "Complex mathematical theorems"),
    Record("3", Str("History Overview"), "Major historical events")
  ]

  /** What POST accepts as `textContent`: a string with at least one character. */
  predicate IsNonEmptyString(v: JsonValue) {
    v.Str? && v.s != ""
  }

  /** The id a record appended to a store of `count` records receives:
      `(count + 1).toString()`, always a store id. */
  function NextId(count: nat): (id: string)
    ensures IsStoreId(id)
  {
    DecimalString(count + 1)
  }

  /** The reply to a failed generation: a safety block is the client's
      problem (400, with the message), anything else is the server's (500). */
  function GenerationFailureResponse(thrown: Thrown): (r: Response)
    ensures r.Reply? && (r.status == 400 || r.status == 500)
    ensures r.status == 400 <==> thrown.ErrorInstance? && Includes(thrown.message, "SAFETY")
    ensures r.status == 400 ==> r.body == FailureWithDetails(SafetyBlocked, thrown.message)
    ensures r.status == 500 ==> r.body == Failure(GenerationFailed)
  {
    if thrown.ErrorInstance? && Includes(thrown.message, "SAFETY") then
      Reply(400, FailureWithDetails(SafetyBlocked, thrown.message))
    else
      Reply(500, Failure(GenerationFailed))
  }

  /** The key DELETE compares ids with: `parseInt(param).toString()`. */
  function DeleteKey(rawId: string): string {
    NumberToString(ParseInt(rawId))
  }

  predicate HasId(s: seq<Record>, key: string) {
    exists i :: 0 <= i < |s| && s[i].id == key
  }

  /** `s.filter(p => p.id !== key)`. */
  function Without(s: seq<Record>, key: string): (r: seq<Record>)
    ensures |r| <= |s|
    ensures forall x :: x in r <==> x in s && x.id != key
    ensures forall x :: multiset(r)[x] == if x.id == key then 0 else multiset(s)[x]
  {
    if s == [] then []
    else
      assert s == [s[0]] + s[1..];
      if s[0].id == key then Without(s[1..], key)
      else [s[0]] + Without(s[1..], key)
  }

  /** Every id the store hands out: the decimal numeral of a positive number. */
  ghost predicate IsStoreId(id: string) {
    exists n: nat :: 1 <= n && id == DecimalString(n)
  }

  ghost predicate StoreIds(s: seq<Record>) {
    forall i :: 0 <= i < |s| ==> IsStoreId(s[i].id)
  }

  /** The router's state: the module-level `podcastSummaries` list. */
  class PodcastSummaryRouter {
    var podcastSummaries: seq<Record>

    /** Ids are positive decimal numerals; they need not be distinct. */
    ghost predicate Valid()
      reads this
    {
      StoreIds(podcastSummaries)
    }

    constructor ()
      ensures Valid()
      ensures podcastSummaries == InitialSummaries
    {
      podcastSummaries := InitialSummaries;
      assert DecimalString(1) == "1" && DecimalString(2) == "2" && DecimalString(3) == "3";
    }

    /** GET /: the whole list, in insertion order. */
    method Get() returns (r: Response)
      ensures r.Reply? && r.status == 200
      ensures r.body == SummaryList(podcastSummaries)
    {
      r := Reply(200, SummaryList(podcastSummaries));
    }

    /** POST /: `generation` is what the generator would yield for this text;
        `generatorInput` is the text embedded in the prompt it was given, if
        it was asked. */
    method Post(title: JsonValue, textContent: JsonValue, apiKeyPresent: bool, generation: Generation)
      returns (r: Response, generatorInput: Option<string>)
      requires Valid()
      modifies this
      ensures Valid()
      // missing, empty or not a string
      ensures !IsNonEmptyString(textContent) ==>
        && r == Reply(400, Failure(MissingTextContent))
        && generatorInput == None
        && podcastSummaries == old(podcastSummaries)
      // longer than the limit
      ensures IsNonEmptyString(textContent) && Utf16Length(textContent.s) > TextLimit ==>
        && r == Reply(413, Failure(InputTooLong))
        && generatorInput == None
        && podcastSummaries == old(podcastSummaries)
      // no API key: the process exits
      ensures IsNonEmptyString(textContent) && Utf16Length(textContent.s) <= TextLimit && !apiKeyPresent ==>
        && r == Exit(1)
        && generatorInput == None
        && podcastSummaries == old(podcastSummaries)
      // the generator is asked, with the text as given
      ensures IsNonEmptyString(textContent) && Utf16Length(textContent.s) <= TextLimit && apiKeyPresent ==>
        generatorInput == Some(textContent.s)
      // a script comes back: one record appended, holding the script
      ensures IsNonEmptyString(textContent) && Utf16Length(textContent.s) <= TextLimit && apiKeyPresent
              && generation.Script? ==>
        && r == Reply(200, GeneratedScript(generation.text))
        && podcastSummaries
           == old(podcastSummaries) + [Record(NextId(|old(podcastSummaries)|), title, generation.text)]
      // the generator throws: classified, store untouched
      ensures IsNonEmptyString(textContent) && Utf16Length(textContent.s) <= TextLimit && apiKeyPresent
              && generation.Threw? ==>
        && r == GenerationFailureResponse(generation.thrown)
        && podcastSummaries == old(podcastSummaries)
    {
      generatorInput := None;
      MissingOrNotStringIff(textContent);
      if !Truthy(textContent) || TypeOf(textContent) != "string" {
        r := Reply(400, Failure(MissingTextContent));
        return;
      }
      var text := textContent.s;
      if Utf16Length(text) > TextLimit {
        r := Reply(413, Failure(InputTooLong));
        return;
      }
      if !apiKeyPresent {
        r := Exit(1);
        return;
      }
      generatorInput := Some(text);
      match generation
      case Script(script) =>
        AppendKeepsStoreIds(podcastSummaries, title, script);
        podcastSummaries := podcastSummaries + [Record(NextId(|podcastSummaries|), title, script)];
        r := Reply(200, GeneratedScript(script));
      case Threw(thrown) =>
        r := GenerationFailureResponse(thrown);
    }

    /** DELETE /:id, with `rawId` the decoded path parameter. */
    method Delete(rawId: string) returns (r: Response)
      requires Valid()
      modifies this
      ensures Valid()
      ensures podcastSummaries == Without(old(podcastSummaries), DeleteKey(rawId))
      ensures !HasId(old(podcastSummaries), DeleteKey(rawId)) ==>
        && r == Reply(404, Failure(NotFound))
        && podcastSummaries == old(podcastSummaries)
      ensures HasId(old(podcastSummaries), DeleteKey(rawId)) ==>
        && r == Reply(200, Deleted(PodcastDeleted, podcastSummaries))
        && |podcastSummaries| < |old(podcastSummaries)|
    {
      var id := ParseInt(rawId);
      var initialLength := |podcastSummaries|;
      WithoutShrinksIff(podcastSummaries, NumberToString(id));
      WithoutKeepsStoreIds(podcastSummaries, NumberToString(id));
      podcastSummaries := Without(podcastSummaries, NumberToString(id));
      if |podcastSummaries| == initialLength {
        r := Reply(404, Failure(NotFound));
        return;
      }
      r := Reply(200, Deleted(PodcastDeleted, podcastSummaries));
    }
  }

  // ---------------------------------------------------------------------------
  // The filter behind DELETE

  /** The filter removes something exactly when some record has the key, and
      otherwise leaves the list as it was. */
  lemma {:induction false} WithoutShrinksIff(s: seq<Record>, key: string)
    ensures |Without(s, key)| < |s| <==> HasId(s, key)
    ensures !HasId(s, key) ==> Without(s, key) == s
  {
    if s != [] {
      WithoutShrinksIff(s[1..], key);
      HasIdFirstOrRest(s, key);
    }
  }

  lemma HasIdFirstOrRest(s: seq<Record>, key: string)
    requires s != []
    ensures HasId(s, key) <==> s[0].id == key || HasId(s[1..], key)
  {
    if HasId(s[1..], key) {
      var i :| 0 <= i < |s[1..]| && s[1..][i].id == key;
      assert s[i + 1].id == key;
    }
    if HasId(s, key) && s[0].id != key {
      var i :| 0 <= i < |s| && s[i].id == key;
      assert s[1..][i - 1].id == key;
    }
  }

  /** The filter keeps order: filtering a concatenation filters each part. */
  lemma {:induction false} WithoutConcat(a: seq<Record>, b: seq<Record>, key: string)
    ensures Without(a + b, key) == Without(a, key) + Without(b, key)
  {
    if a == [] {
      assert a + b == b;
    } else {
      assert (a + b)[1..] == a[1..] + b;
      WithoutConcat(a[1..], b, key);
    }
  }

  /** Every record with the key is gone afterwards. */
  lemma WithoutRemovesKey(s: seq<Record>, key: string)
    ensures !HasId(Without(s, key), key)
  {
    var r := Without(s, key);
    forall i | 0 <= i < |r|
      ensures r[i].id != key
    {
      assert r[i] in r;
    }
  }

  /** Filtering keeps store ids store ids. */
  lemma WithoutKeepsStoreIds(s: seq<Record>, key: string)
    requires StoreIds(s)
    ensures StoreIds(Without(s, key))
  {
    var r := Without(s, key);
    forall i | 0 <= i < |r|
      ensures IsStoreId(r[i].id)
    {
      assert r[i] in s;
      var j :| 0 <= j < |s| && s[j] == r[i];
    }
  }

  // ---------------------------------------------------------------------------
  // The DELETE key

  /** Reading a key again changes nothing: keys are fixed points of the normalisation. */
  lemma DeleteKeyIdempotent(rawId: string)
    ensures DeleteKey(DeleteKey(rawId)) == DeleteKey(rawId)
  {
    ParseIntOfNumberToString(ParseInt(rawId));
  }

  /** A store id is its own key, so DELETE with a listed id targets that record. */
  lemma StoreIdIsOwnKey(id: string)
    requires IsStoreId(id)
    ensures DeleteKey(id) == id
  {
    var n: nat :| 1 <= n && id == DecimalString(n);
    ParseIntOfDecimal(n);
  }

  /** Leading zeros in the path parameter are ignored: "007" deletes id "7". */
  lemma DeleteKeyDropsLeadingZeros(zeros: string, n: nat)
    requires forall i :: 0 <= i < |zeros| ==> zeros[i] == '0'
    ensures DeleteKey(zeros + DecimalString(n)) == DecimalString(n)
  {
    var d := DecimalString(n);
    DecimalStringFacts(n);
    var s := zeros + d;
    assert forall i :: 0 <= i < |s| ==> '0' <= s[i] <= '9' by {
      forall i | 0 <= i < |s| ensures '0' <= s[i] <= '9' {
        if i >= |zeros| {
          assert s[i] == d[i - |zeros|];
        }
      }
    }
    ParseIntOfDigits(s);
    DigitsValueLeadingZeros(zeros, d, 10);
  }

  lemma LeadingZerosExample()
    ensures DeleteKey("007") == "7"
  {
    DeleteKeyDropsLeadingZeros("00", 7);
    assert "00" + DecimalString(7) == "007";
  }

  /** A printed number starts with a digit from 1 to 9 exactly when it is a
      positive integer: NaN starts with `N`, negatives with `-`, zero is "0". */
  lemma LeadingCharOfNumber(v: NumberValue)
    ensures var t := NumberToString(v);
      t != [] && ('1' <= t[0] <= '9' <==> v.Finite? && v.value >= 1)
  {
    match v
    case NaN =>
    case Finite(n) =>
      if n < 0 {
        assert NumberToString(v)[0] == '-';
      } else {
        DecimalStringFacts(n);
      }
  }

  /** Only a parameter that parses to a positive integer can match a stored
      record: "abc" (NaN), "0" and "-3" always get 404. */
  lemma DeleteMatchesOnlyPositiveKeys(s: seq<Record>, rawId: string)
    requires StoreIds(s)
    requires HasId(s, DeleteKey(rawId))
    ensures ParseInt(rawId).Finite? && ParseInt(rawId).value >= 1
  {
    var i :| 0 <= i < |s| && s[i].id == DeleteKey(rawId);
    var n: nat :| 1 <= n && s[i].id == DecimalString(n);
    DecimalStringFacts(n);
    LeadingCharOfNumber(ParseInt(rawId));
  }

  // ---------------------------------------------------------------------------
  // POST

  /** The 413 boundary: more than 50,000 characters is always too long, and
      50,000 characters or fewer inside the Basic Multilingual Plane always pass. */
  lemma TextLimitBoundary(text: string)
    ensures |text| > TextLimit ==> Utf16Length(text) > TextLimit
    ensures (forall i :: 0 <= i < |text| ==> text[i] as int <= 0xFFFF) && |text| <= TextLimit ==>
              Utf16Length(text) <= TextLimit
  {
    if forall i :: 0 <= i < |text| ==> text[i] as int <= 0xFFFF {
      Utf16LengthOfBmp(text);
    }
  }

  /** An appended record's id is a store id, so the store keeps its invariant. */
  lemma AppendKeepsStoreIds(s: seq<Record>, title: JsonValue, script: string)
    requires StoreIds(s)
    ensures StoreIds(s + [Record(NextId(|s|), title, script)])
  {
    var t := s + [Record(NextId(|s|), title, script)];
    forall i | 0 <= i < |t|
      ensures IsStoreId(t[i].id)
    {
      if i == |s| {
        assert t[i].id == DecimalString(|s| + 1);
      } else {
        assert t[i] == s[i];
      }
    }
  }
}
