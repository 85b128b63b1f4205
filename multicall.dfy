/**
 * Batched contract calls (src/utils/multicall.ts). A list of calls is turned
 * into positional calldata for the aggregator contract, and the aggregator's
 * positional return data is decoded back call by call. The ABI coder and the
 * aggregator contract are outside the model: they are passed in as functions.
 */
module Multicall {
  import opened Wrappers

  newtype byte = x: int | 0 <= x < 256
  type Bytes = seq<byte>

  /** A value the ABI coder takes as a parameter or gives back as a result. */
  datatype AbiValue =
    | Int(n: int)
    | Bool(b: bool)
    | Text(s: string)
    | Address(a: string)
    | Raw(data: Bytes)
    | Tuple(items: seq<AbiValue>)

  /** `Call`: the contract address, the function name and the optional parameters. */
  datatype Call = Call(address: string, name: string, params: Option<seq<AbiValue>>)

  /** One entry of the aggregate request. */
  datatype CallData = CallData(target: string, callData: Bytes)

  /**
   * The `Interface` the ABI builds: `encodeFunctionData` and
   * `decodeFunctionResult`, either of which may throw (an `Err` with its message).
   */
  datatype Interface = Interface(
    encodeFunctionData: (string, Option<seq<AbiValue>>) -> Result<Bytes, string>,
    decodeFunctionResult: (string, Bytes) -> Result<seq<AbiValue>, string>)

  /**
   * Why a batch is rejected: an exception from the coder or the transport, or the
   * TypeError of reading `calls[i].name` when the aggregator returned more slots
   * than there are calls.
   */
  datatype Failure = Thrown(message: string) | CallMissing(index: nat)

  /** One field of the options object; `Undefined` is an own property holding `undefined`. */
  datatype OptionValue = Undefined | Flag(b: bool) | Number(n: int) | Str(s: string)

  /** `MulticallOptions`: the call overrides plus `requireSuccess`, as an object's own properties. */
  type MulticallOptions = map<string, OptionValue>

  const RequireSuccessKey := "requireSuccess"

  // ---------------------------------------------------------------------------
  // Address normalisation

  predicate IsAsciiUpper(c: char)
  {
    'A' <= c <= 'Z'
  }

  predicate IsAsciiLetter(c: char)
  {
    'A' <= c <= 'Z' || 'a' <= c <= 'z'
  }

  /** `toLowerCase` on one character of an address. */
  function LowerChar(c: char): char
  {
    if IsAsciiUpper(c) then (c as int + 32) as char else c
  }

  /** `toLowerCase` on an address. */
  function ToLower(s: string): (r: string)
    ensures |r| == |s|
    ensures forall i :: 0 <= i < |r| ==> !IsAsciiUpper(r[i])
  {
    seq(|s|, i requires 0 <= i < |s| => LowerChar(s[i]))
  }

  /** Two characters are the same letter in either case, or the same character. */
  predicate SameIgnoringCase(x: char, y: char)
  {
    x == y
    || (IsAsciiLetter(x) && IsAsciiLetter(y) && (x as int - y as int == 32 || y as int - x as int == 32))
  }

  lemma LowerCharAgrees(x: char, y: char)
    ensures LowerChar(x) == LowerChar(y) <==> SameIgnoringCase(x, y)
  {
  }

  /** Lower-casing identifies exactly the addresses that differ only in letter case. */
  lemma ToLowerIdentifiesCase(a: string, b: string)
    ensures ToLower(a) == ToLower(b)
        <==> |a| == |b| && forall i :: 0 <= i < |a| ==> SameIgnoringCase(a[i], b[i])
  {
    if ToLower(a) == ToLower(b) {
      forall i | 0 <= i < |a| ensures SameIgnoringCase(a[i], b[i]) {
        assert ToLower(a)[i] == ToLower(b)[i];
        LowerCharAgrees(a[i], b[i]);
      }
    }
    if |a| == |b| && forall i :: 0 <= i < |a| ==> SameIgnoringCase(a[i], b[i]) {
      forall i | 0 <= i < |a| ensures ToLower(a)[i] == ToLower(b)[i] {
        LowerCharAgrees(a[i], b[i]);
      }
    }
  }

  /** Lower-casing twice changes nothing more. */
  lemma ToLowerIdempotent(s: string)
    ensures ToLower(ToLower(s)) == ToLower(s)
  {
  }

  // ---------------------------------------------------------------------------
  // Encoding

  /** Call `i` encodes without throwing. */
  predicate Encodes(itf: Interface, calls: seq<Call>, i: int)
    requires 0 <= i < |calls|
  {
    itf.encodeFunctionData(calls[i].name, calls[i].params).Ok?
  }

  /**
   * `calls.map(call => ({ target: call.address.toLowerCase(), callData: encode }))`:
   * one entry per call, in order; the first call that fails to encode aborts the map.
   */
  function EncodeCalls(itf: Interface, calls: seq<Call>): (r: Result<seq<CallData>, Failure>)
    ensures r.Ok? <==> forall i :: 0 <= i < |calls| ==> Encodes(itf, calls, i)
    ensures r.Ok? ==> |r.value| == |calls|
    ensures r.Ok? ==> forall i :: 0 <= i < |calls| ==>
      && r.value[i].target == ToLower(calls[i].address)
      && itf.encodeFunctionData(calls[i].name, calls[i].params) == Ok(r.value[i].callData)
    ensures r.Err? ==> exists i :: (0 <= i < |calls| && !Encodes(itf, calls, i)
      && (forall j :: 0 <= j < i ==> Encodes(itf, calls, j))
      && r.error == Thrown(itf.encodeFunctionData(calls[i].name, calls[i].params).error))
    decreases |calls|
  {
    if calls == [] then Ok([])
    else
      match itf.encodeFunctionData(calls[0].name, calls[0].params)
      case Err(message) =>
        assert !Encodes(itf, calls, 0);
        Err(Thrown(message))
      case Ok(data) =>
        var rest := EncodeCalls(itf, calls[1..]);
        assert forall i :: 1 <= i < |calls| ==> (Encodes(itf, calls, i) <==> Encodes(itf, calls[1..], i - 1));
        match rest
        case Err(f) =>
          var k :| 0 <= k < |calls[1..]| && !Encodes(itf, calls[1..], k)
            && (forall j :: 0 <= j < k ==> Encodes(itf, calls[1..], j))
            && f == Thrown(itf.encodeFunctionData(calls[1..][k].name, calls[1..][k].params).error);
          assert !Encodes(itf, calls, k + 1);
          Err(f)
        case Ok(tail) =>
          Ok([CallData(ToLower(calls[0].address), data)] + tail)
  }

  /** Calls that differ only in the letter case of their addresses get identical calldata. */
  lemma {:induction false} CalldataIgnoresAddressCase(itf: Interface, calls: seq<Call>, others: seq<Call>)
    requires |calls| == |others|
    requires forall i :: 0 <= i < |calls| ==>
      && calls[i].name == others[i].name && calls[i].params == others[i].params
      && ToLower(calls[i].address) == ToLower(others[i].address)
    ensures EncodeCalls(itf, calls) == EncodeCalls(itf, others)
    decreases |calls|
  {
    if calls != [] {
      CalldataIgnoresAddressCase(itf, calls[1..], others[1..]);
    }
  }

  // ---------------------------------------------------------------------------
  // Decoding, strict (`multicall`)

  /** Slot `i` of the return data has a call and decodes against its function name. */
  predicate SlotDecodes(itf: Interface, calls: seq<Call>, returnData: seq<Bytes>, i: int)
    requires 0 <= i < |returnData|
  {
    i < |calls| && itf.decodeFunctionResult(calls[i].name, returnData[i]).Ok?
  }

  /** What decoding slot `i` throws when it does not decode. */
  function SlotFailure(itf: Interface, calls: seq<Call>, returnData: seq<Bytes>, i: int): Failure
    requires 0 <= i < |returnData| && !SlotDecodes(itf, calls, returnData, i)
  {
    if i >= |calls| then CallMissing(i)
    else Thrown(itf.decodeFunctionResult(calls[i].name, returnData[i]).error)
  }

  /**
   * `returnData.map((call, i) => itf.decodeFunctionResult(calls[i].name, call))`
   * over the first `n` slots: slot `i` decodes with the name of call `i`; the
   * first slot that throws aborts the map.
   */
  function DecodeSlots(itf: Interface, calls: seq<Call>, returnData: seq<Bytes>, n: nat)
    : (r: Result<seq<seq<AbiValue>>, Failure>)
    requires n <= |returnData|
    ensures r.Ok? <==> forall i :: 0 <= i < n ==> SlotDecodes(itf, calls, returnData, i)
    ensures r.Ok? ==> |r.value| == n
    ensures r.Ok? ==> forall i :: 0 <= i < n ==>
      i < |calls| && itf.decodeFunctionResult(calls[i].name, returnData[i]) == Ok(r.value[i])
    ensures r.Err? ==> exists i :: (0 <= i < n && !SlotDecodes(itf, calls, returnData, i)
      && (forall j :: 0 <= j < i ==> SlotDecodes(itf, calls, returnData, j))
      && r.error == SlotFailure(itf, calls, returnData, i))
    decreases n
  {
    if n == 0 then Ok([])
    else
      match DecodeSlots(itf, calls, returnData, n - 1)
      case Err(f) => Err(f)
      case Ok(values) =>
        if n - 1 >= |calls| then
          assert !SlotDecodes(itf, calls, returnData, n - 1);
          Err(CallMissing(n - 1))
        else
          match itf.decodeFunctionResult(calls[n - 1].name, returnData[n - 1])
          case Err(message) =>
            assert !SlotDecodes(itf, calls, returnData, n - 1);
            Err(Thrown(message))
          case Ok(value) => Ok(values + [value])
  }

  /**
   * `multicall(abi, calls)`: encode, send one `aggregate` request, decode every
   * returned slot against the call at the same position. A throw anywhere
   * rejects the whole batch.
   */
  function Multicall(itf: Interface, aggregate: seq<CallData> -> Result<seq<Bytes>, string>, calls: seq<Call>)
    : (r: Result<seq<seq<AbiValue>>, Failure>)
    ensures r.Ok? ==> EncodeCalls(itf, calls).Ok? && aggregate(EncodeCalls(itf, calls).value).Ok?
    ensures r.Ok? ==>
      var returnData := aggregate(EncodeCalls(itf, calls).value).value;
      && |r.value| == |returnData| <= |calls|
      && forall i :: 0 <= i < |returnData| ==>
           itf.decodeFunctionResult(calls[i].name, returnData[i]) == Ok(r.value[i])
    ensures EncodeCalls(itf, calls).Ok? && aggregate(EncodeCalls(itf, calls).value).Err?
            ==> r == Err(Thrown(aggregate(EncodeCalls(itf, calls).value).error))
  {
    match EncodeCalls(itf, calls)
    case Err(f) => Err(f)
    case Ok(calldata) =>
      match aggregate(calldata)
      case Err(message) => Err(Thrown(message))
      case Ok(returnData) =>
        var r := DecodeSlots(itf, calls, returnData, |returnData|);
        assert r.Ok? && |returnData| > |calls| ==> SlotDecodes(itf, calls, returnData, |calls|);
        r
  }

  /**
   * When every call encodes, the aggregator answers one slot per call and every
   * slot decodes, the result has one entry per call, in order.
   */
  lemma MulticallAligned(itf: Interface, aggregate: seq<CallData> -> Result<seq<Bytes>, string>, calls: seq<Call>)
    requires forall i :: 0 <= i < |calls| ==> Encodes(itf, calls, i)
    requires aggregate(EncodeCalls(itf, calls).value).Ok?
    requires |aggregate(EncodeCalls(itf, calls).value).value| == |calls|
    requires forall i :: 0 <= i < |calls| ==>
      itf.decodeFunctionResult(calls[i].name, aggregate(EncodeCalls(itf, calls).value).value[i]).Ok?
    ensures Multicall(itf, aggregate, calls).Ok?
    ensures |Multicall(itf, aggregate, calls).value| == |calls|
  {
  }

  // ---------------------------------------------------------------------------
  // Decoding, best effort (`multicallv2`)

  /** `requireSuccess` from `const { requireSuccess = true, ...overrides } = options || {}`. */
  function RequireSuccess(options: Option<MulticallOptions>): (v: OptionValue)
    ensures v != Undefined
    ensures (options.None? || RequireSuccessKey !in options.value || options.value[RequireSuccessKey] == Undefined)
            ==> v == Flag(true)
    ensures options.Some? && RequireSuccessKey in options.value && options.value[RequireSuccessKey] != Undefined
            ==> v == options.value[RequireSuccessKey]
  {
    var given := if options.Some? then options.value else map[];
    if RequireSuccessKey in given && given[RequireSuccessKey] != Undefined then given[RequireSuccessKey]
    else Flag(true)
  }

  /** `overrides` from the same destructuring: every own property except `requireSuccess`. */
  function Overrides(options: Option<MulticallOptions>): (overrides: MulticallOptions)
    ensures RequireSuccessKey !in overrides
    ensures options.None? ==> overrides == map[]
    ensures options.Some? ==> overrides.Keys == options.value.Keys - {RequireSuccessKey}
    ensures options.Some? ==> forall k :: k in overrides ==> overrides[k] == options.value[k]
  {
    var given := if options.Some? then options.value else map[];
    given - {RequireSuccessKey}
  }

  /** Slot `i` either failed (no decoding) or has a call and decodes. */
  predicate TrySlotDecodes(itf: Interface, calls: seq<Call>, returnData: seq<(bool, Bytes)>, i: int)
    requires 0 <= i < |returnData|
  {
    !returnData[i].0 || (i < |calls| && itf.decodeFunctionResult(calls[i].name, returnData[i].1).Ok?)
  }

  function TrySlotFailure(itf: Interface, calls: seq<Call>, returnData: seq<(bool, Bytes)>, i: int): Failure
    requires 0 <= i < |returnData| && !TrySlotDecodes(itf, calls, returnData, i)
  {
    if i >= |calls| then CallMissing(i)
    else Thrown(itf.decodeFunctionResult(calls[i].name, returnData[i].1).error)
  }

  /**
   * `returnData.map(([result, data], i) => result ? decode(calls[i].name, data) : null)`
   * over the first `n` slots: a failed slot becomes `None` without looking at its
   * call; the first successful slot that throws aborts the map.
   */
  function TryDecodeSlots(itf: Interface, calls: seq<Call>, returnData: seq<(bool, Bytes)>, n: nat)
    : (r: Result<seq<Option<seq<AbiValue>>>, Failure>)
    requires n <= |returnData|
    ensures r.Ok? <==> forall i :: 0 <= i < n ==> TrySlotDecodes(itf, calls, returnData, i)
    ensures r.Ok? ==> |r.value| == n
    ensures r.Ok? ==> forall i :: 0 <= i < n ==>
      && (r.value[i].None? <==> !returnData[i].0)
      && (returnData[i].0 ==> i < |calls| && itf.decodeFunctionResult(calls[i].name, returnData[i].1) == Ok(r.value[i].value))
    ensures r.Err? ==> exists i :: (0 <= i < n && !TrySlotDecodes(itf, calls, returnData, i)
      && (forall j :: 0 <= j < i ==> TrySlotDecodes(itf, calls, returnData, j))
      && r.error == TrySlotFailure(itf, calls, returnData, i))
    decreases n
  {
    if n == 0 then Ok([])
    else
      match TryDecodeSlots(itf, calls, returnData, n - 1)
      case Err(f) => Err(f)
      case Ok(values) =>
        var (result, data) := returnData[n - 1];
        if !result then Ok(values + [None])
        else if n - 1 >= |calls| then
          assert !TrySlotDecodes(itf, calls, returnData, n - 1);
          Err(CallMissing(n - 1))
        else
          match itf.decodeFunctionResult(calls[n - 1].name, data)
          case Err(message) =>
            assert !TrySlotDecodes(itf, calls, returnData, n - 1);
            Err(Thrown(message))
          case Ok(value) => Ok(values + [Some(value)])
  }

  /**
   * `multicallv2(abi, calls, options)`: encode, send one `tryAggregate` request
   * with `requireSuccess` (default true) first and the remaining options as
   * overrides, then decode; a slot whose success flag is false becomes `None`.
   */
  function MulticallV2(
    itf: Interface,
    tryAggregate: (OptionValue, seq<CallData>, MulticallOptions) -> Result<seq<(bool, Bytes)>, string>,
    calls: seq<Call>,
    options: Option<MulticallOptions>)
    : (r: Result<seq<Option<seq<AbiValue>>>, Failure>)
    ensures r.Ok? ==> (EncodeCalls(itf, calls).Ok?
      && tryAggregate(RequireSuccess(options), EncodeCalls(itf, calls).value, Overrides(options)).Ok?)
    ensures r.Ok? ==>
      var returnData := tryAggregate(RequireSuccess(options), EncodeCalls(itf, calls).value, Overrides(options)).value;
      && |r.value| == |returnData|
      && forall i :: 0 <= i < |returnData| ==>
        && (r.value[i].None? <==> !returnData[i].0)
        && (returnData[i].0 ==> i < |calls| && itf.decodeFunctionResult(calls[i].name, returnData[i].1) == Ok(r.value[i].value))
    ensures EncodeCalls(itf, calls).Ok?
      && tryAggregate(RequireSuccess(options), EncodeCalls(itf, calls).value, Overrides(options)).Err?
      ==> r.Err?
  {
    var requireSuccess := RequireSuccess(options);
    var overrides := Overrides(options);
    match EncodeCalls(itf, calls)
    case Err(f) => Err(f)
    case Ok(calldata) =>
      match tryAggregate(requireSuccess, calldata, overrides)
      case Err(message) => Err(Thrown(message))
      case Ok(returnData) =>
        var r := TryDecodeSlots(itf, calls, returnData, |returnData|);
        assert r.Ok? ==> forall i :: 0 <= i < |returnData| ==> TrySlotDecodes(itf, calls, returnData, i);
        r
  }

  /**
   * Best effort: when the aggregator answers one slot per call and every
   * successful slot decodes, the result has one entry per call and exactly the
   * failed slots are `None`.
   */
  lemma BestEffortKeepsAlignment(
    itf: Interface,
    tryAggregate: (OptionValue, seq<CallData>, MulticallOptions) -> Result<seq<(bool, Bytes)>, string>,
    calls: seq<Call>,
    options: Option<MulticallOptions>)
    requires forall i :: 0 <= i < |calls| ==> Encodes(itf, calls, i)
    requires tryAggregate(RequireSuccess(options), EncodeCalls(itf, calls).value, Overrides(options)).Ok?
    requires |tryAggregate(RequireSuccess(options), EncodeCalls(itf, calls).value, Overrides(options)).value| == |calls|
    requires forall i :: 0 <= i < |calls| ==>
      var slot := tryAggregate(RequireSuccess(options), EncodeCalls(itf, calls).value, Overrides(options)).value[i];
      slot.0 ==> itf.decodeFunctionResult(calls[i].name, slot.1).Ok?
    ensures MulticallV2(itf, tryAggregate, calls, options).Ok?
    ensures |MulticallV2(itf, tryAggregate, calls, options).value| == |calls|
  {
  }
}
