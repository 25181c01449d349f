/**
 * `RateHandler`: the one mutable map of shaping settings, the GET handler that
 * validates and applies requested changes, and the commands it hands to the
 * shell. `os.system` is modelled by appending to the handler's command log.
 */
module Handler {
  import opened Wrappers
  import opened Decimal
  import opened Shaper
  import opened Response

  const RateKey: string := "rate"
  const DelayKey: string := "delay"
  const JitterKey: string := "jitter"
  const PacketErrorKey: string := "packet_error"

  /** The settings the handler knows; no other key is ever stored. */
  const Recognised: set<string> := {RateKey, DelayKey, JitterKey, PacketErrorKey}

  /** The start-up settings: a very high rate and no delay, jitter or loss. */
  const Defaults: map<string, int> :=
    map[RateKey := 80000, DelayKey := 0, JitterKey := 0, PacketErrorKey := 0]

  /** `shape_traffic(**data)`: the stored map as keyword arguments. */
  function ToParams(data: map<string, int>): Params
    requires Recognised <= data.Keys
  {
    Params(data[RateKey], data[DelayKey], data[JitterKey], data[PacketErrorKey])
  }

  /** The defaults hold exactly the recognised keys and give the plain rate command's settings. */
  lemma DefaultSettings()
    ensures Defaults.Keys == Recognised
    ensures ToParams(Defaults) == Params(80000, 0, 0, 0)
  {
  }

  /** The query string as (key, value) pairs in the order they were sent. */
  type Query = seq<(string, string)>

  function QueryKeys(query: Query): set<string>
  {
    set i | 0 <= i < |query| :: query[i].0
  }

  /** `request.args[key][0]`: the first value sent for `key`. */
  function FirstValue(query: Query, key: string): (r: Option<string>)
    ensures r.Some? <==> key in QueryKeys(query)
    decreases |query|
  {
    if query == [] then None
    else if query[0].0 == key then Some(query[0].1)
    else
      assert QueryKeys(query) == {query[0].0} + QueryKeys(query[1..]);
      FirstValue(query[1..], key)
  }

  /** The value found is the one in the first pair sent with `key`. */
  lemma {:induction false} FirstValueIsFirst(query: Query, key: string)
    ensures var r := FirstValue(query, key);
      r.Some? ==> exists i ::
        && 0 <= i < |query| && query[i] == (key, r.value)
        && forall j :: 0 <= j < i ==> query[j].0 != key
    decreases |query|
  {
    if query != [] && query[0].0 != key {
      FirstValueIsFirst(query[1..], key);
      var r := FirstValue(query, key);
      if r.Some? {
        var i :|
          && 0 <= i < |query[1..]| && query[1..][i] == (key, r.value)
          && forall j :: 0 <= j < i ==> query[1..][j].0 != key;
        assert query[i + 1] == (key, r.value);
        assert forall j :: 1 <= j < i + 1 ==> query[j] == query[1..][j - 1];
      }
    } else if query != [] {
      assert query[0] == (key, query[0].1);
    }
  }

  /** `int(request.args[key][0])`, or `None` where that raises `ValueError`. */
  function Requested(query: Query, key: string): Option<int>
  {
    match FirstValue(query, key)
    case None => None
    case Some(text) => ParseInt(text)
  }

  predicate Distinct(keys: seq<string>)
  {
    forall i, j :: 0 <= i < j < |keys| ==> keys[i] != keys[j]
  }

  /**
   * `list(set(data.keys()) & set(request.args.keys()))`: each key that is
   * both recognised and sent, once, in an order Python leaves unspecified.
   */
  predicate IsIterationOrder(order: seq<string>, query: Query)
  {
    && Distinct(order)
    && (forall i :: 0 <= i < |order| ==> order[i] in Recognised && order[i] in QueryKeys(query))
    && (forall k :: k in QueryKeys(query) && k in Recognised ==> k in order)
  }

  /** What the update loop of `render_GET` ends with. */
  datatype Outcome =
    | Applied(data: map<string, int>, changed: bool)
    | Rejected(key: string, data: map<string, int>)
  {
    /** Folds the changes already made before this outcome into it. */
    function After(changedBefore: bool): Outcome
    {
      match this
      case Applied(d, changed) => Applied(d, changedBefore || changed)
      case Rejected(_, _) => this
    }
  }

  /**
   * The update loop over `order`, key by key: the first value that does not
   * parse stops it, keeping the updates already made; a parsed value that
   * differs from the stored one replaces it.
   */
  function Process(data: map<string, int>, query: Query, order: seq<string>): (r: Outcome)
    requires forall i :: 0 <= i < |order| ==> order[i] in data
    ensures r.data.Keys == data.Keys
    decreases |order|
  {
    if order == [] then Applied(data, false)
    else
      var key := order[0];
      match Requested(query, key)
      case None => Rejected(key, data)
      case Some(v) =>
        var next := if data[key] != v then data[key := v] else data;
        Process(next, query, order[1..]).After(data[key] != v)
  }

  /** One turn of the update loop, with the changes made before it folded in. */
  lemma ProcessStep(data: map<string, int>, query: Query, order: seq<string>, i: nat, changedBefore: bool)
    requires i < |order| && (forall k :: 0 <= k < |order| ==> order[k] in data)
    requires order[i] in QueryKeys(query)
    ensures FirstValue(query, order[i]).Some?
    ensures ParseInt(FirstValue(query, order[i]).value).None? ==>
      Process(data, query, order[i..]).After(changedBefore) == Rejected(order[i], data)
    ensures ParseInt(FirstValue(query, order[i]).value).Some? ==>
      var v := ParseInt(FirstValue(query, order[i]).value).value;
      var next := if data[order[i]] != v then data[order[i] := v] else data;
      Process(data, query, order[i..]).After(changedBefore)
        == Process(next, query, order[i + 1..]).After(changedBefore || data[order[i]] != v)
  {
    assert order[i..][0] == order[i] && order[i..][1..] == order[i + 1..];
  }

  /**
   * The reference result, independent of order: every key in `keys` whose
   * value parses takes the parsed value, every other key keeps its value.
   */
  function Overridden(data: map<string, int>, query: Query, keys: seq<string>): map<string, int>
  {
    map k | k in data :: if k in keys && Requested(query, k).Some? then Requested(query, k).value else data[k]
  }

  predicate AllParse(query: Query, keys: seq<string>)
  {
    forall i :: 0 <= i < |keys| ==> Requested(query, keys[i]).Some?
  }

  /** Some requested value differs from the stored one. */
  predicate Differs(data: map<string, int>, query: Query, keys: seq<string>)
    requires forall i :: 0 <= i < |keys| ==> keys[i] in data
  {
    exists i :: 0 <= i < |keys| && Requested(query, keys[i]) != Some(data[keys[i]])
  }

  lemma OverriddenStep(data: map<string, int>, query: Query, order: seq<string>, v: int)
    requires |order| > 0 && Distinct(order) && order[0] in data
    requires Requested(query, order[0]) == Some(v)
    ensures Overridden(data[order[0] := v], query, order[1..]) == Overridden(data, query, order)
  {
    var key := order[0];
    assert key !in order[1..];
    assert forall k :: k in order <==> k == key || k in order[1..] by {
      assert order == [key] + order[1..];
    }
  }

  lemma AllParseStep(query: Query, order: seq<string>)
    requires |order| > 0
    ensures AllParse(query, order) <==> Requested(query, order[0]).Some? && AllParse(query, order[1..])
  {
    assert forall i :: 1 <= i < |order| ==> order[i] == order[1..][i - 1];
  }

  lemma DiffersStep(data: map<string, int>, query: Query, order: seq<string>, v: int)
    requires |order| > 0 && Distinct(order) && forall i :: 0 <= i < |order| ==> order[i] in data
    requires Requested(query, order[0]) == Some(v)
    ensures Differs(data[order[0] := v], query, order[1..]) <==> Differs(data, query, order[1..])
    ensures Differs(data, query, order) <==> data[order[0]] != v || Differs(data, query, order[1..])
  {
    var key, rest := order[0], order[1..];
    assert forall i :: 0 <= i < |rest| ==> rest[i] == order[i + 1] && rest[i] != key;
    if Differs(data, query, order) && data[key] == v {
      var i :| 0 <= i < |order| && Requested(query, order[i]) != Some(data[order[i]]);
      assert i > 0 && order[i] == rest[i - 1];
    }
  }

  /**
   * A request whose every recognised value parses stores exactly the
   * requested values and keeps the others; it reports a change exactly when
   * some requested value differs from the stored one. One value that does
   * not parse is enough to reject the request.
   */
  lemma {:induction false} ProcessApplied(data: map<string, int>, query: Query, order: seq<string>)
    requires Distinct(order) && forall i :: 0 <= i < |order| ==> order[i] in data
    ensures Process(data, query, order).Applied? <==> AllParse(query, order)
    ensures Process(data, query, order).Applied? ==>
      && Process(data, query, order).data == Overridden(data, query, order)
      && (Process(data, query, order).changed <==> Differs(data, query, order))
    decreases |order|
  {
    if order == [] {
      assert Overridden(data, query, order) == data;
    } else {
      var key := order[0];
      AllParseStep(query, order);
      if Requested(query, key).Some? {
        var v := Requested(query, key).value;
        var next := if data[key] != v then data[key := v] else data;
        assert next == data[key := v];
        ProcessApplied(next, query, order[1..]);
        OverriddenStep(data, query, order, v);
        DiffersStep(data, query, order, v);
      }
    }
  }

  /**
   * `r` is what the loop leaves when the key at position `j` is the first
   * whose value does not parse.
   */
  predicate RejectedAt(data: map<string, int>, query: Query, order: seq<string>, j: int, r: Outcome)
  {
    && 0 <= j < |order|
    && r == Rejected(order[j], Overridden(data, query, order[..j]))
    && Requested(query, order[j]).None?
    && AllParse(query, order[..j])
  }

  lemma RejectedShift(data: map<string, int>, query: Query, order: seq<string>, v: int, j: int, r: Outcome)
    requires |order| > 0 && Distinct(order) && order[0] in data
    requires Requested(query, order[0]) == Some(v)
    requires RejectedAt(data[order[0] := v], query, order[1..], j, r)
    ensures RejectedAt(data, query, order, j + 1, r)
  {
    var prefix := order[..j + 1];
    assert prefix[1..] == order[1..][..j];
    OverriddenStep(data, query, prefix, v);
    assert order[j + 1] == order[1..][j];
    AllParseStep(query, prefix);
  }

  /**
   * A rejected request names the first key, in loop order, whose value does
   * not parse; the keys before it have been stored, the keys after it are
   * untouched.
   */
  lemma {:induction false} ProcessRejected(data: map<string, int>, query: Query, order: seq<string>)
    requires Distinct(order) && forall i :: 0 <= i < |order| ==> order[i] in data
    requires Process(data, query, order).Rejected?
    ensures exists j :: RejectedAt(data, query, order, j, Process(data, query, order))
    decreases |order|
  {
    var key := order[0];
    match Requested(query, key)
    case None =>
      assert order[..0] == [];
      assert Overridden(data, query, order[..0]) == data;
      assert RejectedAt(data, query, order, 0, Process(data, query, order));
    case Some(v) =>
      var next := if data[key] != v then data[key := v] else data;
      assert next == data[key := v];
      var inner := Process(next, query, order[1..]);
      assert inner.Rejected? && Process(data, query, order) == inner;
      ProcessRejected(next, query, order[1..]);
      var j :| RejectedAt(next, query, order[1..], j, inner);
      RejectedShift(data, query, order, v, j, inner);
  }

  /** After a rejection, every key from the failing one on keeps its stored value. */
  lemma LaterKeysUntouched(data: map<string, int>, query: Query, order: seq<string>, j: nat, k: nat)
    requires Distinct(order) && j <= k < |order| && order[k] in data
    ensures Overridden(data, query, order[..j])[order[k]] == data[order[k]]
  {
  }

  /** Sending the same request again changes nothing and so applies nothing. */
  lemma RepeatedRequestUnchanged(data: map<string, int>, query: Query, order: seq<string>)
    requires Distinct(order) && forall i :: 0 <= i < |order| ==> order[i] in data
    requires Process(data, query, order).Applied?
    ensures var stored := Process(data, query, order).data;
      Process(stored, query, order) == Applied(stored, false)
  {
    var stored := Process(data, query, order).data;
    assert AllParse(query, order) && stored == Overridden(data, query, order) by {
      ProcessApplied(data, query, order);
    }
    assert Overridden(stored, query, order) == stored;
    assert !Differs(stored, query, order);
    ProcessApplied(stored, query, order);
  }

  /** A request that reports no change leaves every stored value as it was. */
  lemma NoChangeKeepsSettings(data: map<string, int>, query: Query, order: seq<string>)
    requires Distinct(order) && forall i :: 0 <= i < |order| ==> order[i] in data
    requires Process(data, query, order).Applied? && !Process(data, query, order).changed
    ensures Process(data, query, order).data == data
  {
    ProcessApplied(data, query, order);
    forall k | k in data && k in order && Requested(query, k).Some?
      ensures Requested(query, k).value == data[k]
    {
      var i :| 0 <= i < |order| && order[i] == k;
      assert Requested(query, order[i]) == Some(data[order[i]]);
    }
    assert Overridden(data, query, order) == data;
  }

  /** The last command handed to the shell is the rate command for `data`. */
  ghost predicate InSync(data: map<string, int>, log: seq<string>)
    requires Recognised <= data.Keys
  {
    |log| > 0 && log[|log| - 1] == ShapeCommand(ToParams(data))
  }

  /**
   * A request without a parse error keeps the shaping in force in step with
   * the stored settings: either nothing changed and no command is issued, or
   * the full new settings are applied.
   */
  lemma AppliedStaysInSync(data: map<string, int>, log: seq<string>, query: Query, order: seq<string>)
    requires data.Keys == Recognised && IsIterationOrder(order, query) && InSync(data, log)
    requires Process(data, query, order).Applied?
    ensures var r := Process(data, query, order);
      InSync(r.data, log + if r.changed then ApplyCommands(ToParams(r.data)) else [])
  {
    var r := Process(data, query, order);
    if !r.changed {
      assert r.data == data by {
        OrderStored(data, query, order);
        NoChangeKeepsSettings(data, query, order);
      }
      assert log + [] == log;
    } else {
      var applied := log + ApplyCommands(ToParams(r.data));
      assert applied[|applied| - 1] == ShapeCommand(ToParams(r.data));
    }
  }

  /** The facts about the visited keys that the update loop relies on. */
  lemma OrderStored(data: map<string, int>, query: Query, order: seq<string>)
    requires data.Keys == Recognised && IsIterationOrder(order, query)
    ensures Distinct(order) && forall i :: 0 <= i < |order| ==> order[i] in data
  {
  }

  lemma FiveThousand()
    ensures ParseInt("5000") == Some(5000)
  {
    assert Str(5000) == "5000" by {
      assert NatText(5) == "5";
      assert NatText(50) == "50";
      assert NatText(500) == "500";
    }
    ParseStr(5000);
  }

  /** `?rate=5000` on fresh settings stores the new rate and reports a change. */
  lemma RateRequestStored()
    ensures Process(Defaults, [("rate", "5000")], [RateKey]) == Applied(Defaults[RateKey := 5000], true)
  {
    assert Requested([("rate", "5000")], RateKey) == Some(5000) by {
      assert [("rate", "5000")][0].0 == RateKey;
      FiveThousand();
    }
  }

  /** The stored rate of 5000 is applied as the plain rate command. */
  lemma RateRequestCommand()
    ensures ShapeCommand(ToParams(Defaults[RateKey := 5000])) == "/wondershaper -a eth0 -u 5000 -d 5000"
  {
    assert Str(5000) == "5000" by {
      FiveThousand();
      StrParse("5000");
    }
    assert Options(ToParams(Defaults[RateKey := 5000])) == "";
  }

  /** The reply to `?rate=5000` echoes the stored rate. */
  lemma RateRequestEcho()
    ensures EchoBody(Echoed(Defaults[RateKey := 5000], [RateKey])) == "Received:\nrate=5000 \n\n"
  {
    var entries := Echoed(Defaults[RateKey := 5000], [RateKey]);
    assert entries == [(RateKey, 5000)] by {
      assert [RateKey][..0] == [];
    }
    assert Line(RateKey, 5000) == "rate=5000 \n" by {
      FiveThousand();
      StrParse("5000");
    }
    assert EchoText(entries) == "Received:\n" + "rate=5000 \n" by {
      assert entries[..0] == [];
    }
  }

  /** `?rate=abc` is refused by name and changes nothing. */
  lemma RateRequestRejected()
    ensures Process(Defaults, [("rate", "abc")], [RateKey]) == Rejected(RateKey, Defaults)
    ensures ErrorBody(RateKey) == "rate Value Error\n"
  {
    assert Requested([("rate", "abc")], RateKey).None? by {
      assert [("rate", "abc")][0].0 == RateKey;
      assert !IsDigit('a');
    }
  }

  /**
   * A rejected request can leave the stored settings out of step with the
   * shaping in force: with `rate=5000&delay=abc` visited rate first, the new
   * rate is stored but never applied, and repeating `rate=5000` afterwards
   * reports no change, so it is not applied then either.
   */
  lemma RejectionLeavesRateUnapplied()
    ensures var query := [("rate", "5000"), ("delay", "abc")];
      var r := Process(Defaults, query, [RateKey, DelayKey]);
      && r == Rejected(DelayKey, Defaults[RateKey := 5000])
      && !InSync(r.data, ApplyCommands(ToParams(Defaults)))
      && Process(r.data, [("rate", "5000")], [RateKey]) == Applied(r.data, false)
  {
    var query := [("rate", "5000"), ("delay", "abc")];
    var stored := Defaults[RateKey := 5000];
    assert Requested(query, RateKey) == Some(5000) by {
      assert query[0].0 == RateKey;
      assert FirstValue(query, RateKey) == Some("5000");
      FiveThousand();
    }
    assert Requested(query, DelayKey).None? by {
      assert query[0].0 != DelayKey && query[1..][0].0 == DelayKey;
      assert FirstValue(query, DelayKey) == Some("abc");
      assert !IsDigit('a');
    }
    assert Process(Defaults, query, [RateKey, DelayKey]) == Rejected(DelayKey, stored) by {
      assert [RateKey, DelayKey][1..] == [DelayKey];
    }
    assert ShapeCommand(ToParams(stored)) != ShapeCommand(ToParams(Defaults)) by {
      CommandDeterminesSettings(ToParams(stored), ToParams(Defaults));
    }
    assert Requested([("rate", "5000")], RateKey) == Some(5000) by {
      assert [("rate", "5000")][0].0 == RateKey;
      assert FirstValue([("rate", "5000")], RateKey) == Some("5000");
      FiveThousand();
    }
  }

  /** The loop depends on the query only through the values it parses. */
  lemma {:induction false} ProcessSameRequests(data: map<string, int>, q1: Query, q2: Query, order: seq<string>)
    requires forall i :: 0 <= i < |order| ==> order[i] in data
    requires forall i :: 0 <= i < |order| ==> Requested(q1, order[i]) == Requested(q2, order[i])
    ensures Process(data, q1, order) == Process(data, q2, order)
    decreases |order|
  {
    if order != [] {
      var key := order[0];
      if Requested(q1, key).Some? {
        var v := Requested(q1, key).value;
        var next := if data[key] != v then data[key := v] else data;
        assert forall i :: 0 <= i < |order[1..]| ==> order[1..][i] == order[i + 1];
        ProcessSameRequests(next, q1, q2, order[1..]);
      }
    }
  }

  /** The query with every pair whose key is not recognised removed, order kept. */
  function RecognisedPairs(query: Query): (r: Query)
    ensures forall i :: 0 <= i < |r| ==> r[i].0 in Recognised
    decreases |query|
  {
    if query == [] then []
    else
      var rest := RecognisedPairs(query[1..]);
      if query[0].0 in Recognised then [query[0]] + rest else rest
  }

  lemma {:induction false} FirstValueRecognised(query: Query, key: string)
    requires key in Recognised
    ensures FirstValue(RecognisedPairs(query), key) == FirstValue(query, key)
    decreases |query|
  {
    if query != [] {
      FirstValueRecognised(query[1..], key);
      var rest := RecognisedPairs(query[1..]);
      if query[0].0 in Recognised {
        var r := [query[0]] + rest;
        assert r[0] == query[0] && r[1..] == rest;
      }
    }
  }

  lemma QueryKeysRecognised(query: Query)
    ensures forall k :: k in QueryKeys(RecognisedPairs(query)) <==> k in QueryKeys(query) && k in Recognised
  {
    var r := RecognisedPairs(query);
    forall k ensures k in QueryKeys(r) <==> k in QueryKeys(query) && k in Recognised {
      if k in Recognised {
        FirstValueRecognised(query, k);
        assert FirstValue(r, k).Some? <==> k in QueryKeys(r);
        assert FirstValue(query, k).Some? <==> k in QueryKeys(query);
      }
    }
  }

  /**
   * Query parameters that are not recognised are ignored wherever they
   * appear: the query and its recognised pairs alone give the same visited
   * keys and the same outcome.
   */
  lemma UnrecognisedKeyIgnored(data: map<string, int>, query: Query, order: seq<string>)
    requires forall i :: 0 <= i < |order| ==> order[i] in data && order[i] in Recognised
    ensures IsIterationOrder(order, RecognisedPairs(query)) <==> IsIterationOrder(order, query)
    ensures Process(data, RecognisedPairs(query), order) == Process(data, query, order)
  {
    QueryKeysRecognised(query);
    forall i | 0 <= i < |order|
      ensures Requested(RecognisedPairs(query), order[i]) == Requested(query, order[i])
    {
      FirstValueRecognised(query, order[i]);
    }
    ProcessSameRequests(data, RecognisedPairs(query), query, order);
  }

  /** The settings echoed back, one per visited key, with their stored values. */
  function Echoed(data: map<string, int>, order: seq<string>): (entries: seq<(string, int)>)
    requires forall i :: 0 <= i < |order| ==> order[i] in data
    ensures |entries| == |order|
    decreases |order|
  {
    if order == [] then []
    else
      var last := order[|order| - 1];
      Echoed(data, order[..|order| - 1]) + [(last, data[last])]
  }

  lemma EchoStep(data: map<string, int>, order: seq<string>, j: nat)
    requires forall i :: 0 <= i < |order| ==> order[i] in data
    requires j < |order|
    ensures EchoText(Echoed(data, order[..j + 1]))
      == EchoText(Echoed(data, order[..j])) + Line(order[j], data[order[j]])
  {
    assert order[..j + 1][..j] == order[..j];
  }

  lemma {:induction false} EchoedAt(data: map<string, int>, order: seq<string>, i: nat)
    requires forall i :: 0 <= i < |order| ==> order[i] in data
    requires i < |order|
    ensures Echoed(data, order)[i] == (order[i], data[order[i]])
    decreases |order|
  {
    if i < |order| - 1 {
      EchoedAt(data, order[..|order| - 1], i);
    }
  }

  lemma RecognisedPlain(key: string)
    requires key in Recognised
    ensures PlainKey(key)
  {
    if key == RateKey {
    } else if key == DelayKey {
    } else if key == JitterKey {
    } else {
      assert key == PacketErrorKey;
    }
  }

  /**
   * A successful reply reads back as exactly the visited keys, in loop
   * order, each with its now-stored value; an error reply reads back as the
   * offending key.
   */
  lemma RepliesReadBack(data: map<string, int>, order: seq<string>, key: string)
    requires forall i :: 0 <= i < |order| ==> order[i] in data && order[i] in Recognised
    requires key in Recognised
    ensures ParseReply(EchoBody(Echoed(data, order))) == Some(Received(Echoed(data, order)))
    ensures ParseReply(ErrorBody(key)) == Some(ValueError(key))
  {
    var entries := Echoed(data, order);
    forall i | 0 <= i < |entries| ensures PlainKey(entries[i].0) {
      EchoedAt(data, order, i);
      RecognisedPlain(order[i]);
    }
    RecognisedPlain(key);
    ParseEchoBody(entries);
    ParseErrorBody(key);
  }

  class RateHandler {
    /** The stored settings (`self.data`). */
    var data: map<string, int>
    /** Every command handed to the shell so far, oldest first. */
    var log: seq<string>

    ghost predicate Valid()
      reads this
    {
      data.Keys == Recognised
    }

    /** Starts from the defaults and applies them once. */
    constructor ()
      ensures Valid() && data == Defaults
      ensures log == ApplyCommands(ToParams(Defaults))
      ensures InSync(data, log)
    {
      data := Defaults;
      log := [];
      new;
      ShapeTraffic(ToParams(data));
    }

    /** `shape_traffic`: clear all shaping, then issue the rate command. */
    method ShapeTraffic(p: Params)
      modifies this`log
      ensures log == old(log) + [ClearCommand, ShapeCommand(p)]
    {
      var cmd := ShapeCommand(p);
      log := log + [ClearCommand];
      log := log + [cmd];
    }

    /**
     * `render_GET`: visits the recognised keys of the query in `order`,
     * stores each parsed value that differs, stops at the first value that
     * does not parse, applies the full settings once if anything changed,
     * and answers with the echo or the error text.
     */
    method RenderGet(query: Query, order: seq<string>) returns (body: string)
      requires Valid() && IsIterationOrder(order, query)
      modifies this`data, this`log
      ensures Valid()
      ensures match Process(old(data), query, order)
        case Applied(stored, changed) =>
          && data == stored
          && log == old(log) + (if changed then ApplyCommands(ToParams(stored)) else [])
          && body == EchoBody(Echoed(stored, order))
        case Rejected(key, stored) =>
          && data == stored
          && log == old(log)
          && body == ErrorBody(key)
      ensures old(InSync(data, log)) && Process(old(data), query, order).Applied? ==> InSync(data, log)
    {
      if InSync(data, log) && Process(data, query, order).Applied? {
        AppliedStaysInSync(data, log, query, order);
      }
      var failed, changed := Update(query, order);
      if failed.Some? {
        return ErrorBody(failed.value);
      }
      if changed {
        ShapeTraffic(ToParams(data));
      }
      body := Echo(order);
    }

    /**
     * The update loop of `render_GET`: stores each parsed value that differs
     * and stops at the first key whose value does not parse.
     */
    method Update(query: Query, order: seq<string>) returns (failed: Option<string>, changed: bool)
      requires Valid() && IsIterationOrder(order, query)
      modifies this`data
      ensures Valid()
      ensures Process(old(data), query, order) ==
        if failed.Some? then Rejected(failed.value, data) else Applied(data, changed)
    {
      ghost var outcome := Process(data, query, order);
      changed := false;
      var i := 0;
      while i < |order|
        invariant 0 <= i <= |order|
        invariant data.Keys == Recognised
        invariant Process(data, query, order[i..]).After(changed) == outcome
      {
        var key := order[i];
        ProcessStep(data, query, order, i, changed);
        var val := ParseInt(FirstValue(query, key).value);
        if val.None? {
          return Some(key), changed;
        }
        if data[key] != val.value {
          data := data[key := val.value];
          changed := true;
        }
        i := i + 1;
      }
      failed := None;
    }

    /** The success reply: the header, then `key=value ` for each visited key. */
    method Echo(order: seq<string>) returns (body: string)
      requires forall i :: 0 <= i < |order| ==> order[i] in data
      ensures body == EchoBody(Echoed(data, order))
    {
      body := "Received:\n";
      for j := 0 to |order|
        invariant body == EchoText(Echoed(data, order[..j]))
      {
        EchoStep(data, order, j);
        body := body + Line(order[j], data[order[j]]);
      }
      assert order[..|order|] == order;
      body := body + "\n";
    }
  }
}
