/**
 * Token-level helpers over a jsmn token array (src/json.cpp).
 * The tokenizer itself is not modelled: a token array is an input, laid out
 * in pre-order as jsmn produces it (a container token is followed by its
 * children; an object's children are key, value, key, value, ...).
 */
module Json {
  import opened Wrappers

  datatype TokenKind = Undefined | Object | Array | String | Primitive

  /** A jsmn token: kind, character offsets [start, end) and number of children. */
  datatype Token = Token(kind: TokenKind, start: int, end: int, size: nat)

  /** json_token_to_string: the text of a token, a view into the JSON text. */
  function TokenToString(json: seq<char>, token: Token): (text: seq<char>)
    requires 0 <= token.start <= token.end <= |json|
    ensures |text| == token.end - token.start
    ensures forall k :: 0 <= k < |text| ==> text[k] == json[token.start + k]
  {
    json[token.start..token.end]
  }

  // ---------------------------------------------------------------------------
  // Skipping values (eat_json)
  // ---------------------------------------------------------------------------

  /**
   * Where the cursor lands after skipping the one value that starts at token i;
   * None when the skip would read past the last token.
   */
  function SkipValue(tokens: seq<Token>, i: nat): (r: Option<nat>)
    ensures r.Some? ==> i < r.value <= |tokens|
    decreases |tokens| - i, 0, 0
  {
    if i >= |tokens| then None
    else match tokens[i].kind
      case Array => SkipValues(tokens, i + 1, tokens[i].size)
      case Object => SkipValues(tokens, i + 1, 2 * tokens[i].size)
      case _ => Some(i + 1)
  }

  /** Where the cursor lands after skipping n consecutive values from token i. */
  function SkipValues(tokens: seq<Token>, i: nat, n: nat): (r: Option<nat>)
    requires i <= |tokens|
    ensures r.Some? ==> i <= r.value <= |tokens|
    ensures r.Some? && n > 0 ==> i < r.value
    decreases |tokens| - i, 1, n
  {
    if n == 0 then Some(i)
    else match SkipValues(tokens, i, n - 1)
      case None => None
      case Some(j) => SkipValue(tokens, j)
  }

  /** If n values can be skipped, so can any fewer. */
  lemma {:induction false} SkipValuesPrefix(tokens: seq<Token>, i: nat, m: nat, n: nat)
    requires i <= |tokens| && m <= n
    requires SkipValues(tokens, i, n).Some?
    ensures SkipValues(tokens, i, m).Some?
    decreases n - m
  {
    if m < n {
      SkipValuesPrefix(tokens, i, m, n - 1);
    }
  }

  /** Skipping a + b values is skipping a values, then b more. */
  lemma {:induction false} SkipValuesSplit(tokens: seq<Token>, i: nat, a: nat, b: nat)
    requires i <= |tokens|
    ensures SkipValues(tokens, i, a + b) ==
      match SkipValues(tokens, i, a)
      case None => None
      case Some(j) => SkipValues(tokens, j, b)
  {
    if b > 0 {
      SkipValuesSplit(tokens, i, a, b - 1);
    }
  }

  /**
   * eat_json: advances the cursor past the value at `token`. A string,
   * primitive or undefined token is one token; an array of size k is its token
   * and k values; an object of size k is its token and 2k values (keys and
   * values).
   */
  method EatJson(tokens: seq<Token>, token: nat) returns (next: nat)
    requires SkipValue(tokens, token).Some?
    ensures SkipValue(tokens, token) == Some(next)
    ensures token < next <= |tokens|
    decreases |tokens| - token
  {
    var current := token;
    next := token + 1;
    match tokens[current].kind {
      case String =>
      case Primitive =>
      case Undefined =>
      case Array =>
        var i := 0;
        while i < tokens[current].size
          invariant 0 <= i <= tokens[current].size
          invariant SkipValues(tokens, current + 1, i) == Some(next)
        {
          SkipValuesPrefix(tokens, current + 1, i + 1, tokens[current].size);
          next := EatJson(tokens, next);
          i := i + 1;
        }
      case Object =>
        var i := 0;
        while i < tokens[current].size
          invariant 0 <= i <= tokens[current].size
          invariant SkipValues(tokens, current + 1, 2 * i) == Some(next)
        {
          SkipValuesPrefix(tokens, current + 1, 2 * i + 1, 2 * tokens[current].size);
          next := EatJson(tokens, next);
          SkipValuesPrefix(tokens, current + 1, 2 * i + 2, 2 * tokens[current].size);
          next := EatJson(tokens, next);
          i := i + 1;
        }
    }
  }

  // ---------------------------------------------------------------------------
  // Well-formed token streams: skipping lands on the next sibling
  // ---------------------------------------------------------------------------

  datatype JsonValue =
    | JString(text: seq<char>)
    | JPrimitive(text: seq<char>)
    | JArray(items: seq<JsonValue>)
    | JObject(members: seq<Member>)

  datatype Member = Member(key: seq<char>, value: JsonValue)

  /**
   * If tokens from i on lay out the value v in pre-order, the index just past
   * its last token; None if they do not.
   */
  function ValueSpan(tokens: seq<Token>, i: nat, v: JsonValue): (r: Option<nat>)
    ensures r.Some? ==> i < r.value <= |tokens|
    decreases v
  {
    if i >= |tokens| then None
    else match v
      case JString(_) => if tokens[i].kind == String then Some(i + 1) else None
      case JPrimitive(_) => if tokens[i].kind == Primitive then Some(i + 1) else None
      case JArray(items) =>
        if tokens[i].kind == Array && tokens[i].size == |items| then ItemsSpan(tokens, i + 1, items) else None
      case JObject(members) =>
        if tokens[i].kind == Object && tokens[i].size == |members| then MembersSpan(tokens, i + 1, members) else None
  }

  function ItemsSpan(tokens: seq<Token>, i: nat, items: seq<JsonValue>): (r: Option<nat>)
    requires i <= |tokens|
    ensures r.Some? ==> i <= r.value <= |tokens|
    decreases items
  {
    if items == [] then Some(i)
    else match ValueSpan(tokens, i, items[0])
      case None => None
      case Some(j) => ItemsSpan(tokens, j, items[1..])
  }

  /** Each member is a string key token followed by the member's value. */
  function MembersSpan(tokens: seq<Token>, i: nat, members: seq<Member>): (r: Option<nat>)
    requires i <= |tokens|
    ensures r.Some? ==> i <= r.value <= |tokens|
    decreases members
  {
    if members == [] then Some(i)
    else if i >= |tokens| || tokens[i].kind != String then None
    else match ValueSpan(tokens, i + 1, members[0].value)
      case None => None
      case Some(j) => MembersSpan(tokens, j, members[1..])
  }

  /** On a well-formed stream, skipping a value lands on its next sibling. */
  lemma {:induction false} SkipLandsOnNextSibling(tokens: seq<Token>, i: nat, v: JsonValue)
    requires ValueSpan(tokens, i, v).Some?
    ensures SkipValue(tokens, i) == ValueSpan(tokens, i, v)
    decreases v
  {
    match v
    case JString(_) =>
    case JPrimitive(_) =>
    case JArray(items) =>
      ItemsSkip(tokens, i + 1, items);
    case JObject(members) =>
      MembersSkip(tokens, i + 1, members);
  }

  lemma {:induction false} ItemsSkip(tokens: seq<Token>, i: nat, items: seq<JsonValue>)
    requires i <= |tokens|
    requires ItemsSpan(tokens, i, items).Some?
    ensures SkipValues(tokens, i, |items|) == ItemsSpan(tokens, i, items)
    decreases items
  {
    if items != [] {
      var j := ValueSpan(tokens, i, items[0]).value;
      SkipLandsOnNextSibling(tokens, i, items[0]);
      ItemsSkip(tokens, j, items[1..]);
      SkipValuesSplit(tokens, i, 1, |items| - 1);
      assert SkipValues(tokens, i, 1) == Some(j) by {
        assert SkipValues(tokens, i, 0) == Some(i);
      }
    }
  }

  lemma {:induction false} MembersSkip(tokens: seq<Token>, i: nat, members: seq<Member>)
    requires i <= |tokens|
    requires MembersSpan(tokens, i, members).Some?
    ensures SkipValues(tokens, i, 2 * |members|) == MembersSpan(tokens, i, members)
    decreases members
  {
    if members != [] {
      var j := ValueSpan(tokens, i + 1, members[0].value).value;
      SkipLandsOnNextSibling(tokens, i + 1, members[0].value);
      MembersSkip(tokens, j, members[1..]);
      SkipValuesSplit(tokens, i, 2, 2 * |members| - 2);
      assert SkipValues(tokens, i, 2) == Some(j) by {
        assert SkipValues(tokens, i, 0) == Some(i);
        assert SkipValues(tokens, i, 1) == Some(i + 1);
      }
    }
  }

  // ---------------------------------------------------------------------------
  // The token buffer (determine_token_count_and_reallocate_if_needed)
  // ---------------------------------------------------------------------------

  /** The static token buffer and the count it was last grown to. */
  class TokenBuffer {
    var tokens: array<Token>
    var lastTokenCount: nat

    ghost predicate Valid()
      reads this
    {
      tokens.Length == lastTokenCount
    }

    constructor ()
      ensures Valid() && lastTokenCount == 0
    {
      tokens := new Token[0];
      lastTokenCount := 0;
    }

    /**
     * `needsTokens` is what the counting pass of the tokenizer reported for
     * the text (asserted positive). The buffer grows, keeping its contents,
     * only when more tokens are needed than it holds; it never shrinks.
     */
    method DetermineTokenCountAndReallocateIfNeeded(needsTokens: int) returns (count: nat)
      requires Valid()
      requires needsTokens > 0
      modifies this
      ensures Valid()
      ensures count == needsTokens
      ensures lastTokenCount == if needsTokens > old(lastTokenCount) then needsTokens else old(lastTokenCount)
      ensures tokens[..old(lastTokenCount)] == old(tokens[..])
    {
      if needsTokens > 0 && needsTokens > lastTokenCount {
        var grown := new Token[needsTokens];
        forall k | 0 <= k < tokens.Length {
          grown[k] := tokens[k];
        }
        tokens := grown;
        lastTokenCount := needsTokens;
      }
      count := needsTokens;
    }
  }

  // ---------------------------------------------------------------------------
  // Scanning a response for its "data" arrays (process_json_data_segment)
  // ---------------------------------------------------------------------------

  /** One callback invocation: the array's element count and its first element's token. */
  datatype DataCall = DataCall(size: nat, first: nat)

  function Prepend(calls: seq<DataCall>, rest: Option<seq<DataCall>>): Option<seq<DataCall>>
  {
    match rest
    case None => None
    case Some(more) => Some(calls + more)
  }

  /** A callback never moves the cursor backwards. */
  ghost predicate Advances(consume: (nat, nat) -> nat)
  {
    forall size: nat, first: nat :: consume(size, first) >= first
  }

  /**
   * The callbacks issued when scanning from token i. `isDataKey` stands for
   * json_string_equals(json, token, "data"); `consume(size, first)` is where
   * the callback leaves the cursor. After a callback the scan resumes one
   * token past that point. None: a "data" token not followed by an array
   * token (the source asserts this never happens).
   */
  function DataCalls(tokens: seq<Token>, isDataKey: Token -> bool, consume: (nat, nat) -> nat, i: nat): Option<seq<DataCall>>
    requires Advances(consume)
    decreases |tokens| - i
  {
    if i >= |tokens| then Some([])
    else if !isDataKey(tokens[i]) then DataCalls(tokens, isDataKey, consume, i + 1)
    else if i + 1 >= |tokens| || tokens[i + 1].kind != Array then None
    else
      var call := DataCall(tokens[i + 1].size, i + 2);
      Prepend([call], DataCalls(tokens, isDataKey, consume, consume(call.size, call.first) + 1))
  }

  method ProcessJsonDataSegment(tokens: seq<Token>, isDataKey: Token -> bool, consume: (nat, nat) -> nat)
    returns (calls: Option<seq<DataCall>>)
    requires Advances(consume)
    ensures calls == DataCalls(tokens, isDataKey, consume, 0)
  {
    var done: seq<DataCall> := [];
    var start := 0;
    ghost var all := DataCalls(tokens, isDataKey, consume, 0);
    assert all.Some? ==> [] + all.value == all.value;
    while start < |tokens|
      invariant DataCalls(tokens, isDataKey, consume, 0) == Prepend(done, DataCalls(tokens, isDataKey, consume, start))
      decreases |tokens| - start
    {
      if isDataKey(tokens[start]) {
        var next := start + 1;
        if next >= |tokens| || tokens[next].kind != Array {
          return None;
        }
        start := next + 1;
        var call := DataCall(tokens[next].size, start);
        ghost var rest := DataCalls(tokens, isDataKey, consume, consume(call.size, call.first) + 1);
        assert Prepend(done, Prepend([call], rest)) == Prepend(done + [call], rest) by {
          if rest.Some? {
            assert done + ([call] + rest.value) == (done + [call]) + rest.value;
          }
        }
        done := done + [call];
        start := consume(call.size, start);
      }
      start := start + 1;
    }
    assert done + [] == done;
    calls := Some(done);
  }

  /** Every callback is issued for a "data" token followed by an array token, with that array's size. */
  lemma {:induction false} DataCallsAreDataArrays(tokens: seq<Token>, isDataKey: Token -> bool, consume: (nat, nat) -> nat, i: nat)
    requires Advances(consume)
    requires DataCalls(tokens, isDataKey, consume, i).Some?
    ensures forall c :: c in DataCalls(tokens, isDataKey, consume, i).value ==>
      i + 2 <= c.first <= |tokens| && isDataKey(tokens[c.first - 2]) &&
      tokens[c.first - 1].kind == Array && c.size == tokens[c.first - 1].size
    decreases |tokens| - i
  {
    if i < |tokens| {
      if !isDataKey(tokens[i]) {
        DataCallsAreDataArrays(tokens, isDataKey, consume, i + 1);
      } else {
        var call := DataCall(tokens[i + 1].size, i + 2);
        DataCallsAreDataArrays(tokens, isDataKey, consume, consume(call.size, call.first) + 1);
      }
    }
  }

  /**
   * Tokens that are not "data" keys are stepped over: the first callback is
   * for the first "data" token, and with none there is no callback.
   */
  lemma {:induction false} DataCallsSkipOtherTokens(tokens: seq<Token>, isDataKey: Token -> bool, consume: (nat, nat) -> nat, i: nat, k: nat)
    requires Advances(consume)
    requires i <= k <= |tokens|
    requires forall m :: i <= m < k ==> !isDataKey(tokens[m])
    ensures DataCalls(tokens, isDataKey, consume, i) == DataCalls(tokens, isDataKey, consume, k)
    decreases k - i
  {
    if i < k {
      DataCallsSkipOtherTokens(tokens, isDataKey, consume, i + 1, k);
    }
  }
}
