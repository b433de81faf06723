/** Post-processing of fetched log entries: `transform_logs`, which rewrites
    six hex-encoded numeric fields of every entry in place, and the matching
    and assembly part of `decode_log`. The Keccak hash with its hex rendering
    and the ABI decode routine are not modelled; they are the parameters
    `keccakHex` and `decode` of the operations that use them. */
module Logs {
  import opened Values
  import opened Hex

  /** The fields `transform_logs` converts, in the order it converts them. */
  const HexKeys: seq<string> := ["blockNumber", "timeStamp", "gasPrice", "gasUsed", "logIndex", "transactionIndex"]

  /** A state reached by an operation that may stop half-way: the state at
      that point, and the exception if it was raised. */
  datatype Partial<T> = Partial(state: T, error: Option<Error>)

  /** `if key in dictionary: dictionary[key] = int(dictionary[key], 16)`. */
  function ConvertKey(rec: Record, key: string): Result<Record, Error>
  {
    if key !in rec then Ok(rec)
    else match IntBase16(rec[key])
      case Ok(n) => Ok(rec[key := Num(n)])
      case Err(e) => Err(e)
  }

  /** The keys processed in order; a failing conversion stops the walk with
      the earlier keys already rewritten. */
  function ConvertKeys(rec: Record, keys: seq<string>): Partial<Record>
    decreases |keys|
  {
    if keys == [] then Partial(rec, None)
    else match ConvertKey(rec, keys[0])
      case Err(e) => Partial(rec, Some(e))
      case Ok(next) => ConvertKeys(next, keys[1..])
  }

  /** The list after `transform_logs`, and the exception that stopped it. */
  function TransformAll(logs: seq<Record>): Partial<seq<Record>>
  {
    if logs == [] then Partial([], None)
    else
      var first := ConvertKeys(logs[0], HexKeys);
      if first.error.Some? then Partial([first.state] + logs[1..], first.error)
      else
        var rest := TransformAll(logs[1..]);
        Partial([first.state] + rest.state, rest.error)
  }

  function Prepend(prefix: seq<Record>, p: Partial<seq<Record>>): Partial<seq<Record>>
  {
    Partial(prefix + p.state, p.error)
  }

  /** How `TransformAll` proceeds from the conversion of the first record. */
  lemma TransformAllCons(logs: seq<Record>, first: Partial<Record>)
    requires logs != [] && first == ConvertKeys(logs[0], HexKeys)
    ensures TransformAll(logs)
            == if first.error.Some? then Partial([first.state] + logs[1..], first.error)
               else Prepend([first.state], TransformAll(logs[1..]))
  {
  }

  lemma SplitAt(s: seq<Record>, i: int)
    requires 0 <= i < |s|
    ensures s == s[..i] + ([s[i]] + s[i + 1..])
  {
  }

  lemma PrependTwice(a: seq<Record>, b: seq<Record>, p: Partial<seq<Record>>)
    ensures Prepend(a, Prepend(b, p)) == Prepend(a + b, p)
  {
    assert a + (b + p.state) == (a + b) + p.state;
  }

  /** The inner loop of `transform_logs` on the i-th record: the listed keys
      in order, each present one rewritten in place. */
  method ConvertAt(logs: array<Record>, i: int) returns (error: Option<Error>)
    requires 0 <= i < logs.Length
    modifies logs
    ensures logs[..i] == old(logs[..i]) && logs[i + 1..] == old(logs[i + 1..])
    ensures Partial(logs[i], error) == ConvertKeys(old(logs[i]), HexKeys)
  {
    ghost var record := logs[i];
    for j := 0 to |HexKeys|
      invariant logs[..i] == old(logs[..i]) && logs[i + 1..] == old(logs[i + 1..])
      invariant ConvertKeys(record, HexKeys) == ConvertKeys(logs[i], HexKeys[j..])
    {
      var key := HexKeys[j];
      assert HexKeys[j..][1..] == HexKeys[j + 1..];
      if key in logs[i] {
        match IntBase16(logs[i][key])
        case Ok(n) =>
          logs[i] := logs[i][key := Num(n)];
        case Err(e) =>
          return Some(e);
      }
    }
    error := None;
  }

  /** `transform_logs`: each record of the array is rewritten in place; the
      result is the exception raised, if any, with the array as it was left. */
  method TransformLogs(logs: array<Record>) returns (error: Option<Error>)
    modifies logs
    ensures Partial(logs[..], error) == TransformAll(old(logs[..]))
  {
    ghost var original := logs[..];
    assert Prepend([], TransformAll(original)) == TransformAll(original) by {
      assert [] + TransformAll(original).state == TransformAll(original).state;
    }
    for i := 0 to logs.Length
      invariant logs[i..] == original[i..]
      invariant TransformAll(original) == Prepend(logs[..i], TransformAll(original[i..]))
    {
      assert original[i..][0] == original[i] && original[i..][1..] == original[i + 1..];
      ghost var done := logs[..i];
      var e := ConvertAt(logs, i);
      TransformAllCons(original[i..], Partial(logs[i], e));
      if e.Some? {
        ghost var now := logs[..];
        SplitAt(now, i);
        assert now[..i] == done && now[i + 1..] == original[i + 1..];
        return e;
      }
      PrependTwice(done, [logs[i]], TransformAll(original[i + 1..]));
      assert logs[..i + 1] == done + [logs[i]];
    }
    assert logs[..] == logs[..logs.Length] && logs[logs.Length..] == [];
    assert logs[..] + [] == logs[..];
    error := None;
  }

  predicate Convertible(rec: Record)
  {
    forall k :: k in HexKeys && k in rec ==> IntBase16(rec[k]).Ok?
  }

  lemma {:induction false} ConvertKeysSpec(rec: Record, keys: seq<string>)
    requires forall a, b :: 0 <= a < b < |keys| ==> keys[a] != keys[b]
    decreases |keys|
    ensures var p := ConvertKeys(rec, keys);
            && (p.error.None? <==> forall k :: k in keys && k in rec ==> IntBase16(rec[k]).Ok?)
            && (p.error.None? ==>
                  && p.state.Keys == rec.Keys
                  && forall k :: k in rec ==>
                       p.state[k] == if k in keys then Num(IntBase16(rec[k]).value) else rec[k])
  {
    if keys != [] {
      var key := keys[0];
      assert forall k :: k in keys[1..] ==> k != key by {
        forall k | k in keys[1..] ensures k != key {
          var b :| 0 <= b < |keys[1..]| && keys[1..][b] == k;
          assert keys[b + 1] == k;
        }
      }
      match ConvertKey(rec, key)
      case Err(e) =>
      case Ok(next) =>
        ConvertKeysSpec(next, keys[1..]);
        assert forall k :: k in keys <==> k == key || k in keys[1..] by {
          assert keys == [key] + keys[1..];
        }
    }
  }

  lemma {:induction false} TransformAllLength(logs: seq<Record>)
    ensures |TransformAll(logs).state| == |logs|
  {
    if logs != [] {
      TransformAllCons(logs, ConvertKeys(logs[0], HexKeys));
      TransformAllLength(logs[1..]);
    }
  }

  lemma {:induction false} TransformAllFails(logs: seq<Record>)
    ensures TransformAll(logs).error.None? <==> forall i :: 0 <= i < |logs| ==> Convertible(logs[i])
  {
    if logs != [] {
      var first := ConvertKeys(logs[0], HexKeys);
      ConvertKeysSpec(logs[0], HexKeys);
      TransformAllCons(logs, first);
      TransformAllFails(logs[1..]);
      var rest := logs[1..];
      if first.error.None? && TransformAll(rest).error.None? {
        forall i | 0 <= i < |logs| ensures Convertible(logs[i]) {
          if i > 0 { assert logs[i] == rest[i - 1]; }
        }
      } else if first.error.None? {
        var i :| 0 <= i < |rest| && !Convertible(rest[i]);
        assert logs[i + 1] == rest[i];
      }
    }
  }

  /** `conv` is `orig` with each of the six fields present parsed from hex. */
  predicate Converted(orig: Record, conv: Record)
    requires Convertible(orig)
  {
    && conv.Keys == orig.Keys
    && forall k :: k in orig ==> conv[k] == if k in HexKeys then Num(IntBase16(orig[k]).value) else orig[k]
  }

  lemma ConvertHead(rec: Record)
    requires Convertible(rec)
    ensures ConvertKeys(rec, HexKeys).error.None?
    ensures Converted(rec, ConvertKeys(rec, HexKeys).state)
  {
    ConvertKeysSpec(rec, HexKeys);
  }

  lemma {:induction false} TransformAllFields(logs: seq<Record>)
    requires forall i :: 0 <= i < |logs| ==> Convertible(logs[i])
    ensures |TransformAll(logs).state| == |logs|
    ensures forall i :: 0 <= i < |logs| ==> Converted(logs[i], TransformAll(logs).state[i])
  {
    if logs != [] {
      var first := ConvertKeys(logs[0], HexKeys);
      ConvertHead(logs[0]);
      TransformAllCons(logs, first);
      assert forall i :: 0 <= i < |logs| - 1 ==> logs[1..][i] == logs[i + 1];
      TransformAllFields(logs[1..]);
      var p := TransformAll(logs);
      var rest := TransformAll(logs[1..]);
      assert p.state == [first.state] + rest.state;
      forall i | 1 <= i < |logs| ensures p.state[i] == rest.state[i - 1] && logs[i] == logs[1..][i - 1] {
      }
    }
  }

  /** What `transform_logs` promises: it fails exactly when some listed field
      that is present is not a hex string; otherwise the list keeps its length
      and order, every record keeps its keys, each of the six fields present
      holds its hex-parsed number and every other field is unchanged. */
  lemma TransformAllSpec(logs: seq<Record>)
    ensures var p := TransformAll(logs);
            && |p.state| == |logs|
            && (p.error.None? <==> forall i :: 0 <= i < |logs| ==> Convertible(logs[i]))
            && (p.error.None? ==> forall i :: 0 <= i < |logs| ==>
                  && p.state[i].Keys == logs[i].Keys
                  && forall k :: k in logs[i] ==>
                       p.state[i][k] == if k in HexKeys then Num(IntBase16(logs[i][k]).value) else logs[i][k])
  {
    TransformAllLength(logs);
    TransformAllFails(logs);
    if forall i :: 0 <= i < |logs| ==> Convertible(logs[i]) {
      TransformAllFields(logs);
    }
  }

  // ---------------------------------------------------------------------
  // decode_log

  datatype AbiParam = AbiParam(name: string, typ: string, indexed: bool)

  /** One ABI entry: its type (`"event"`, `"function"`, ...), its name and its inputs. */
  datatype AbiItem = AbiItem(kind: string, name: string, inputs: seq<AbiParam>)

  /** A raw log: its topics and its data, as hex strings. */
  datatype Log = Log(topics: seq<string>, data: string)

  /** The decoded view of a log: `"event"` and one field per parameter. */
  type Entry = map<string, Value>

  /** The ABI decode routine applied to a list of type names and the hex
      text after its first two characters; `None` where it raises. */
  type Decoder = (seq<string>, string) -> Option<seq<Value>>

  function Events(abi: seq<AbiItem>): seq<AbiItem>
  {
    if abi == [] then []
    else (if abi[0].kind == "event" then [abi[0]] else []) + Events(abi[1..])
  }

  function Types(params: seq<AbiParam>): (r: seq<string>)
    ensures |r| == |params| && forall i :: 0 <= i < |params| ==> r[i] == params[i].typ
  {
    if params == [] then [] else [params[0].typ] + Types(params[1..])
  }

  function Indexed(params: seq<AbiParam>): seq<AbiParam>
  {
    if params == [] then []
    else (if params[0].indexed then [params[0]] else []) + Indexed(params[1..])
  }

  function NonIndexed(params: seq<AbiParam>): seq<AbiParam>
  {
    if params == [] then []
    else (if params[0].indexed then [] else [params[0]]) + NonIndexed(params[1..])
  }

  /** The indexed inputs are exactly the inputs marked indexed, and the
      non-indexed ones exactly the others. */
  lemma {:induction false} PartitionMembers(params: seq<AbiParam>)
    ensures forall p :: p in Indexed(params) <==> p in params && p.indexed
    ensures forall p :: p in NonIndexed(params) <==> p in params && !p.indexed
  {
    if params != [] {
      PartitionMembers(params[1..]);
      assert params == [params[0]] + params[1..];
    }
  }

  /** The events are exactly the ABI items of kind `"event"`. */
  lemma {:induction false} EventsMembers(abi: seq<AbiItem>)
    ensures forall e :: e in Events(abi) <==> e in abi && e.kind == "event"
  {
    if abi != [] {
      EventsMembers(abi[1..]);
      assert abi == [abi[0]] + abi[1..];
    }
  }

  /** The three filters keep ABI and declaration order: each keeps a single
      item exactly when it qualifies and distributes over concatenation. */
  lemma EventsSingle(x: AbiItem)
    ensures Events([x]) == if x.kind == "event" then [x] else []
  {
    assert [x][1..] == [];
  }

  lemma {:induction false} EventsInOrder(a: seq<AbiItem>, b: seq<AbiItem>)
    ensures Events(a + b) == Events(a) + Events(b)
  {
    if a == [] {
      assert a + b == b;
    } else {
      var x := a[0];
      var ab := a + b;
      assert ab[0] == x && ab[1..] == a[1..] + b;
      EventsInOrder(a[1..], b);
      if x.kind == "event" {
        assert Events(ab) == [x] + Events(ab[1..]);
        assert Events(a) == [x] + Events(a[1..]);
      } else {
        assert Events(ab) == Events(ab[1..]);
        assert Events(a) == Events(a[1..]);
      }
    }
  }

  lemma IndexedSingle(x: AbiParam)
    ensures Indexed([x]) == if x.indexed then [x] else []
  {
    assert [x][1..] == [];
  }

  lemma {:induction false} IndexedInOrder(a: seq<AbiParam>, b: seq<AbiParam>)
    ensures Indexed(a + b) == Indexed(a) + Indexed(b)
  {
    if a == [] {
      assert a + b == b;
    } else {
      var x := a[0];
      var ab := a + b;
      assert ab[0] == x && ab[1..] == a[1..] + b;
      IndexedInOrder(a[1..], b);
      if x.indexed {
        assert Indexed(ab) == [x] + Indexed(ab[1..]);
        assert Indexed(a) == [x] + Indexed(a[1..]);
      } else {
        assert Indexed(ab) == Indexed(ab[1..]);
        assert Indexed(a) == Indexed(a[1..]);
      }
    }
  }

  lemma NonIndexedSingle(x: AbiParam)
    ensures NonIndexed([x]) == if x.indexed then [] else [x]
  {
    assert [x][1..] == [];
  }

  lemma {:induction false} NonIndexedInOrder(a: seq<AbiParam>, b: seq<AbiParam>)
    ensures NonIndexed(a + b) == NonIndexed(a) + NonIndexed(b)
  {
    if a == [] {
      assert a + b == b;
    } else {
      var x := a[0];
      var ab := a + b;
      assert ab[0] == x && ab[1..] == a[1..] + b;
      NonIndexedInOrder(a[1..], b);
      if !x.indexed {
        assert NonIndexed(ab) == [x] + NonIndexed(ab[1..]);
        assert NonIndexed(a) == [x] + NonIndexed(a[1..]);
      } else {
        assert NonIndexed(ab) == NonIndexed(ab[1..]);
        assert NonIndexed(a) == NonIndexed(a[1..]);
      }
    }
  }

  /** `",".join(parts)`. */
  function Join(parts: seq<string>): string
  {
    if parts == [] then ""
    else if |parts| == 1 then parts[0]
    else parts[0] + "," + Join(parts[1..])
  }

  /** The text whose hash identifies the event: `Name(type1,type2,...)`. */
  function SignatureText(event: AbiItem): string
  {
    event.name + "(" + Join(Types(event.inputs)) + ")"
  }

  /** A type name as it appears in a signature: non-empty and comma-free. */
  predicate PlainType(t: string)
  {
    t != [] && ',' !in t
  }

  /** In `a + "," + x` with `a` comma-free, the first comma is at `|a|`. */
  lemma FirstCommaAt(a: string, x: string)
    requires ',' !in a
    ensures (a + "," + x)[|a|] == ','
    ensures forall i :: 0 <= i < |a| ==> (a + "," + x)[i] != ','
  {
  }

  lemma CommaFreePrefix(a: string, b: string, x: string, y: string)
    requires ',' !in a && ',' !in b
    requires a + "," + x == b + "," + y
    ensures a == b && x == y
  {
    var s := a + "," + x;
    FirstCommaAt(a, x);
    FirstCommaAt(b, y);
    assert |a| == |b|;
    assert a == s[..|a|] && b == s[..|b|];
    assert x == s[|a| + 1..] && y == s[|b| + 1..];
  }

  lemma CommaFreeIsNotJoined(a: string, b: string, y: string)
    requires ',' !in a
    ensures a != b + "," + y
  {
  }

  lemma JoinNonEmpty(parts: seq<string>)
    requires parts != [] && forall t :: t in parts ==> PlainType(t)
    ensures Join(parts) != ""
  {
    if |parts| > 1 {
      assert |Join(parts)| >= |parts[0]| + 1;
    } else {
      assert parts[0] in parts;
    }
  }

  /** Joining plain type names with commas loses nothing: the list can be
      read back from the text. */
  lemma {:induction false} JoinInjective(p: seq<string>, q: seq<string>)
    requires forall t :: t in p ==> PlainType(t)
    requires forall t :: t in q ==> PlainType(t)
    requires Join(p) == Join(q)
    ensures p == q
  {
    if p == [] || q == [] {
      if p != [] { JoinNonEmpty(p); }
      if q != [] { JoinNonEmpty(q); }
    } else {
      assert p[0] in p && q[0] in q;
      if |p| == 1 && |q| > 1 {
        CommaFreeIsNotJoined(p[0], q[0], Join(q[1..]));
      } else if |q| == 1 && |p| > 1 {
        CommaFreeIsNotJoined(q[0], p[0], Join(p[1..]));
      } else if |p| > 1 && |q| > 1 {
        CommaFreePrefix(p[0], q[0], Join(p[1..]), Join(q[1..]));
        assert forall t :: t in p[1..] ==> t in p;
        assert forall t :: t in q[1..] ==> t in q;
        JoinInjective(p[1..], q[1..]);
        assert p == [p[0]] + p[1..] && q == [q[0]] + q[1..];
      }
    }
  }

  /** Two overloads of one event name whose parameter types differ have
      different signature texts, so the hash tells them apart. */
  lemma SignatureIdentifiesTypes(e1: AbiItem, e2: AbiItem)
    requires e1.name == e2.name
    requires forall t :: t in Types(e1.inputs) ==> PlainType(t)
    requires forall t :: t in Types(e2.inputs) ==> PlainType(t)
    requires SignatureText(e1) == SignatureText(e2)
    ensures Types(e1.inputs) == Types(e2.inputs)
  {
    var n := |e1.name| + 1;
    var s := SignatureText(e1);
    assert Join(Types(e1.inputs)) == s[n..|s| - 1];
    assert Join(Types(e2.inputs)) == s[n..|s| - 1];
    JoinInjective(Types(e1.inputs), Types(e2.inputs));
  }

  /** Python's `s[2:]`. */
  function Drop2(s: string): string
  {
    if |s| >= 2 then s[2..] else ""
  }

  /** The first event, from index `from` on, whose signature hash is `target`. */
  function FirstMatch(events: seq<AbiItem>, target: string, keccakHex: string -> string, from: nat): (r: Option<nat>)
    decreases |events| - from
    ensures r.Some? ==>
              && from <= r.value < |events|
              && keccakHex(SignatureText(events[r.value])) == target
              && forall j :: from <= j < r.value ==> keccakHex(SignatureText(events[j])) != target
    ensures r.None? ==> forall j :: from <= j < |events| ==> keccakHex(SignatureText(events[j])) != target
  {
    if from >= |events| then None
    else if keccakHex(SignatureText(events[from])) == target then Some(from)
    else FirstMatch(events, target, keccakHex, from + 1)
  }

  /** The indexed parameters from the k-th on: the k-th is decoded from
      `topics[k + 1]` with its own type and stored under its name. */
  function DecodeIndexed(acc: Entry, params: seq<AbiParam>, topics: seq<string>, k: nat, decode: Decoder)
    : Result<Entry, Error>
    decreases |params| - k
  {
    if k >= |params| then Ok(acc)
    else if k + 1 >= |topics| then Err(IndexOutOfRange)
    else match decode([params[k].typ], Drop2(topics[k + 1]))
      case None => Err(DecodeFailed)
      case Some(vs) =>
        if vs == [] then Err(IndexOutOfRange)
        else DecodeIndexed(acc[params[k].name := vs[0]], params, topics, k + 1, decode)
  }

  /** The non-indexed parameters from the k-th on: the k-th takes the k-th
      decoded value. */
  function StoreValues(acc: Entry, params: seq<AbiParam>, values: seq<Value>, k: nat): Result<Entry, Error>
    decreases |params| - k
  {
    if k >= |params| then Ok(acc)
    else if k >= |values| then Err(IndexOutOfRange)
    else StoreValues(acc[params[k].name := values[k]], params, values, k + 1)
  }

  /** The entry built for the matching event. */
  function AssembleEntry(event: AbiItem, log: Log, decode: Decoder): Result<Entry, Error>
  {
    match DecodeIndexed(map["event" := Text(event.name)], Indexed(event.inputs), log.topics, 0, decode)
    case Err(e) => Err(e)
    case Ok(acc) =>
      var nonIndexed := NonIndexed(event.inputs);
      match decode(Types(nonIndexed), Drop2(log.data))
      case None => Err(DecodeFailed)
      case Some(values) => StoreValues(acc, nonIndexed, values, 0)
  }

  /** What `decode_log` returns: no entry when no event matches the first
      topic, else the entry of the first matching event in ABI order. */
  function DecodeLogSpec(log: Log, abi: seq<AbiItem>, keccakHex: string -> string, decode: Decoder)
    : (r: Result<seq<Entry>, Error>)
    ensures r.Ok? ==> |r.value| <= 1
    ensures log.topics == [] ==> r == Err(IndexOutOfRange)
    ensures log.topics != [] && (forall e :: e in abi && e.kind == "event" ==> keccakHex(SignatureText(e)) != log.topics[0])
            ==> r == Ok([])
    ensures r.Ok? && r.value != [] ==>
              var i := FirstMatch(Events(abi), log.topics[0], keccakHex, 0);
              i.Some? && AssembleEntry(Events(abi)[i.value], log, decode) == Ok(r.value[0])
    ensures log.topics != [] && FirstMatch(Events(abi), log.topics[0], keccakHex, 0).Some? ==>
              var i := FirstMatch(Events(abi), log.topics[0], keccakHex, 0).value;
              r == match AssembleEntry(Events(abi)[i], log, decode)
                   case Ok(entry) => Ok([entry])
                   case Err(e) => Err(e)
  {
    if log.topics == [] then Err(IndexOutOfRange)
    else
      var events := Events(abi);
      match FirstMatch(events, log.topics[0], keccakHex, 0)
      case None => Ok([])
      case Some(i) =>
        EventsMembers(abi);
        match AssembleEntry(events[i], log, decode)
        case Ok(entry) => Ok([entry])
        case Err(e) => Err(e)
  }

  /** `decode_log`. */
  method DecodeLog(log: Log, abi: seq<AbiItem>, keccakHex: string -> string, decode: Decoder)
    returns (r: Result<seq<Entry>, Error>)
    ensures r == DecodeLogSpec(log, abi, keccakHex, decode)
  {
    var decodedLogs: seq<Entry> := [];
    if log.topics == [] {
      return Err(IndexOutOfRange);
    }
    var receiptSignature := log.topics[0];
    var events := Events(abi);
    var i := 0;
    while i < |events|
      invariant 0 <= i <= |events|
      invariant FirstMatch(events, receiptSignature, keccakHex, 0) == FirstMatch(events, receiptSignature, keccakHex, i)
      invariant decodedLogs == []
    {
      var event := events[i];
      if keccakHex(SignatureText(event)) == receiptSignature {
        assert FirstMatch(events, receiptSignature, keccakHex, 0) == Some(i);
        var decodedLog: Entry := map["event" := Text(event.name)];
        var indexed := Indexed(event.inputs);
        var k := 0;
        while k < |indexed|
          invariant 0 <= k <= |indexed|
          invariant DecodeIndexed(map["event" := Text(event.name)], indexed, log.topics, 0, decode)
                    == DecodeIndexed(decodedLog, indexed, log.topics, k, decode)
        {
          if k + 1 >= |log.topics| {
            return Err(IndexOutOfRange);
          }
          var decodedTopic := decode([indexed[k].typ], Drop2(log.topics[k + 1]));
          if decodedTopic.None? {
            return Err(DecodeFailed);
          }
          if decodedTopic.value == [] {
            return Err(IndexOutOfRange);
          }
          decodedLog := decodedLog[indexed[k].name := decodedTopic.value[0]];
          k := k + 1;
        }
        var nonIndexed := NonIndexed(event.inputs);
        var values := decode(Types(nonIndexed), Drop2(log.data));
        if values.None? {
          return Err(DecodeFailed);
        }
        ghost var afterIndexed := decodedLog;
        var m := 0;
        while m < |nonIndexed|
          invariant 0 <= m <= |nonIndexed|
          invariant StoreValues(afterIndexed, nonIndexed, values.value, 0)
                    == StoreValues(decodedLog, nonIndexed, values.value, m)
        {
          if m >= |values.value| {
            return Err(IndexOutOfRange);
          }
          decodedLog := decodedLog[nonIndexed[m].name := values.value[m]];
          m := m + 1;
        }
        assert DecodeIndexed(map["event" := Text(event.name)], indexed, log.topics, 0, decode) == Ok(afterIndexed);
        assert AssembleEntry(event, log, decode) == Ok(decodedLog);
        decodedLogs := decodedLogs + [decodedLog];
        assert decodedLogs == [decodedLog];
        assert log.topics != [] && log.topics[0] == receiptSignature;
        assert DecodeLogSpec(log, abi, keccakHex, decode) == Ok(decodedLogs);
        break;
      }
      i := i + 1;
    }
    return Ok(decodedLogs);
  }

  // ---------------------------------------------------------------------
  // What the assembled entry holds

  predicate DistinctNames(params: seq<AbiParam>)
  {
    forall a, b :: 0 <= a < b < |params| ==> params[a].name != params[b].name
  }

  function NamesFrom(params: seq<AbiParam>, k: nat): set<string>
  {
    set j | k <= j < |params| :: params[j].name
  }

  lemma DistinctCons(x: AbiParam, s: seq<AbiParam>)
    requires DistinctNames(s)
    requires forall q :: q in s ==> q.name != x.name
    ensures DistinctNames([x] + s)
  {
  }

  lemma {:induction false} IndexedDistinct(params: seq<AbiParam>)
    requires DistinctNames(params)
    ensures DistinctNames(Indexed(params)) && DistinctNames(NonIndexed(params))
  {
    if params != [] {
      var rest := params[1..];
      assert DistinctNames(rest) by {
        forall a, b | 0 <= a < b < |rest| ensures rest[a].name != rest[b].name {
          assert rest[a] == params[a + 1] && rest[b] == params[b + 1];
        }
      }
      IndexedDistinct(rest);
      PartitionMembers(rest);
      forall q | q in rest ensures q.name != params[0].name {
        var b :| 0 <= b < |rest| && rest[b] == q;
        assert params[b + 1] == q;
      }
      if params[0].indexed {
        DistinctCons(params[0], Indexed(rest));
        assert NonIndexed(params) == NonIndexed(rest);
      } else {
        DistinctCons(params[0], NonIndexed(rest));
        assert Indexed(params) == Indexed(rest);
      }
    }
  }

  /** No parameter name is used twice, and none is the key `event`. */
  predicate WellNamed(event: AbiItem)
  {
    DistinctNames(event.inputs) && forall p :: p in event.inputs ==> p.name != "event"
  }

  lemma {:induction false} DecodeIndexedFields(acc: Entry, params: seq<AbiParam>, topics: seq<string>, k: nat,
                                               decode: Decoder)
    requires DecodeIndexed(acc, params, topics, k, decode).Ok?
    requires DistinctNames(params)
    decreases |params| - k
    ensures var out := DecodeIndexed(acc, params, topics, k, decode).value;
            && out.Keys == acc.Keys + NamesFrom(params, k)
            && (forall key :: key in acc && key !in NamesFrom(params, k) ==> out[key] == acc[key])
            && (k < |params| ==> |params| < |topics|)
            && forall j :: k <= j < |params| ==>
                 && decode([params[j].typ], Drop2(topics[j + 1])).Some?
                 && decode([params[j].typ], Drop2(topics[j + 1])).value != []
                 && out[params[j].name] == decode([params[j].typ], Drop2(topics[j + 1])).value[0]
  {
    if k < |params| {
      var vs := decode([params[k].typ], Drop2(topics[k + 1])).value;
      var next := acc[params[k].name := vs[0]];
      DecodeIndexedFields(next, params, topics, k + 1, decode);
      var out := DecodeIndexed(acc, params, topics, k, decode).value;
      assert NamesFrom(params, k) == {params[k].name} + NamesFrom(params, k + 1);
      assert params[k].name !in NamesFrom(params, k + 1);
      assert out == DecodeIndexed(next, params, topics, k + 1, decode).value;
      assert out[params[k].name] == vs[0];
      forall j | k <= j < |params|
        ensures out[params[j].name] == decode([params[j].typ], Drop2(topics[j + 1])).value[0]
      {
        if j == k {
          assert out[params[k].name] == vs[0];
        }
      }
    }
  }

  lemma {:induction false} StoreValuesFields(acc: Entry, params: seq<AbiParam>, values: seq<Value>, k: nat)
    requires StoreValues(acc, params, values, k).Ok?
    requires DistinctNames(params)
    decreases |params| - k
    ensures var out := StoreValues(acc, params, values, k).value;
            && out.Keys == acc.Keys + NamesFrom(params, k)
            && (forall key :: key in acc && key !in NamesFrom(params, k) ==> out[key] == acc[key])
            && (k < |params| ==> |params| <= |values|)
            && forall j :: k <= j < |params| ==> out[params[j].name] == values[j]
  {
    if k < |params| {
      var next := acc[params[k].name := values[k]];
      StoreValuesFields(next, params, values, k + 1);
      var out := StoreValues(acc, params, values, k).value;
      assert NamesFrom(params, k) == {params[k].name} + NamesFrom(params, k + 1);
      assert params[k].name !in NamesFrom(params, k + 1);
      assert out == StoreValues(next, params, values, k + 1).value;
      forall j | k <= j < |params| ensures out[params[j].name] == values[j] {
        if j == k {
          assert out[params[k].name] == values[k];
        }
      }

    }
  }

  /** A key no later parameter binds keeps its value. */
  lemma {:induction false} StoreValuesKeeps(acc: Entry, params: seq<AbiParam>, values: seq<Value>, k: nat, key: string)
    requires StoreValues(acc, params, values, k).Ok?
    requires key in acc
    requires forall l :: k <= l < |params| ==> params[l].name != key
    decreases |params| - k
    ensures key in StoreValues(acc, params, values, k).value
    ensures StoreValues(acc, params, values, k).value[key] == acc[key]
  {
    if k < |params| {
      StoreValuesKeeps(acc[params[k].name := values[k]], params, values, k + 1, key);
    }
  }

  /** Without distinct names, the last parameter with a given name wins: such
      a parameter (an unnamed one among several, say) holds its own value. */
  lemma {:induction false} StoreValuesLastWins(acc: Entry, params: seq<AbiParam>, values: seq<Value>, k: nat, j: nat)
    requires StoreValues(acc, params, values, k).Ok?
    requires k <= j < |params|
    requires forall l :: j < l < |params| ==> params[l].name != params[j].name
    decreases |params| - k
    ensures j < |values|
    ensures params[j].name in StoreValues(acc, params, values, k).value
    ensures StoreValues(acc, params, values, k).value[params[j].name] == values[j]
  {
    var next := acc[params[k].name := values[k]];
    if j == k {
      StoreValuesKeeps(next, params, values, k + 1, params[k].name);
    } else {
      StoreValuesLastWins(next, params, values, k + 1, j);
    }
  }

  /** The indexed and the non-indexed parameters of an event share no name. */
  lemma PartitionDisjoint(params: seq<AbiParam>)
    requires DistinctNames(params)
    ensures NamesFrom(Indexed(params), 0) !! NamesFrom(NonIndexed(params), 0)
  {
    PartitionMembers(params);
    var indexed := Indexed(params);
    var nonIndexed := NonIndexed(params);
    forall i, j | 0 <= i < |indexed| && 0 <= j < |nonIndexed|
      ensures indexed[i].name != nonIndexed[j].name
    {
      assert indexed[i] in indexed && nonIndexed[j] in nonIndexed;
      var a :| 0 <= a < |params| && params[a] == indexed[i];
      var b :| 0 <= b < |params| && params[b] == nonIndexed[j];
      assert params[a].indexed && !params[b].indexed;
    }
  }

  /** No parameter of a well-named event binds the key `event`. */
  lemma EventKeyReserved(params: seq<AbiParam>)
    requires forall p :: p in params ==> p.name != "event"
    ensures "event" !in NamesFrom(Indexed(params), 0) && "event" !in NamesFrom(NonIndexed(params), 0)
  {
    PartitionMembers(params);
    var indexed := Indexed(params);
    var nonIndexed := NonIndexed(params);
    forall i | 0 <= i < |indexed| ensures indexed[i].name != "event" {
      assert indexed[i] in indexed;
    }
    forall j | 0 <= j < |nonIndexed| ensures nonIndexed[j].name != "event" {
      assert nonIndexed[j] in nonIndexed;
    }
  }

  /** Decoding the indexed parameters and then storing the non-indexed ones,
      from an entry holding only `event`, binds each parameter as decoded. */
  lemma {:induction false} BothPassesFields(name: string, indexed: seq<AbiParam>, nonIndexed: seq<AbiParam>,
                                            topics: seq<string>, values: seq<Value>, decode: Decoder)
    requires DecodeIndexed(map["event" := Text(name)], indexed, topics, 0, decode).Ok?
    requires StoreValues(DecodeIndexed(map["event" := Text(name)], indexed, topics, 0, decode).value,
                         nonIndexed, values, 0).Ok?
    requires DistinctNames(indexed) && DistinctNames(nonIndexed)
    requires NamesFrom(indexed, 0) !! NamesFrom(nonIndexed, 0)
    requires "event" !in NamesFrom(indexed, 0) && "event" !in NamesFrom(nonIndexed, 0)
    ensures var entry := StoreValues(DecodeIndexed(map["event" := Text(name)], indexed, topics, 0, decode).value,
                                     nonIndexed, values, 0).value;
            && entry.Keys == {"event"} + NamesFrom(indexed, 0) + NamesFrom(nonIndexed, 0)
            && entry["event"] == Text(name)
            && (indexed != [] ==> |indexed| < |topics|)
            && (forall i :: 0 <= i < |indexed| ==>
                  && decode([indexed[i].typ], Drop2(topics[i + 1])).Some?
                  && decode([indexed[i].typ], Drop2(topics[i + 1])).value != []
                  && entry[indexed[i].name] == decode([indexed[i].typ], Drop2(topics[i + 1])).value[0])
            && |nonIndexed| <= |values|
            && forall i :: 0 <= i < |nonIndexed| ==> entry[nonIndexed[i].name] == values[i]
  {
    var start: Entry := map["event" := Text(name)];
    DecodeIndexedFields(start, indexed, topics, 0, decode);
    var acc := DecodeIndexed(start, indexed, topics, 0, decode).value;
    StoreValuesFields(acc, nonIndexed, values, 0);
    var entry := StoreValues(acc, nonIndexed, values, 0).value;
    assert acc["event"] == Text(name);
    forall i | 0 <= i < |indexed|
      ensures entry[indexed[i].name] == acc[indexed[i].name]
    {
      assert indexed[i].name in NamesFrom(indexed, 0);
    }
  }

  /** For an event whose parameters have distinct names, the assembled entry
      holds exactly `"event"` (the event's name), the i-th indexed parameter
      decoded from `topics[i + 1]`, and the non-indexed parameters bound in
      declared order to the values decoded from `data`. */
  lemma AssembledEntryFields(event: AbiItem, log: Log, decode: Decoder)
    requires AssembleEntry(event, log, decode).Ok?
    requires WellNamed(event)
    ensures var entry := AssembleEntry(event, log, decode).value;
            var indexed := Indexed(event.inputs);
            var nonIndexed := NonIndexed(event.inputs);
            var values := decode(Types(nonIndexed), Drop2(log.data));
            && entry.Keys == {"event"} + NamesFrom(indexed, 0) + NamesFrom(nonIndexed, 0)
            && entry["event"] == Text(event.name)
            && (indexed != [] ==> |indexed| < |log.topics|)
            && (forall i :: 0 <= i < |indexed| ==>
                  && decode([indexed[i].typ], Drop2(log.topics[i + 1])).Some?
                  && decode([indexed[i].typ], Drop2(log.topics[i + 1])).value != []
                  && entry[indexed[i].name] == decode([indexed[i].typ], Drop2(log.topics[i + 1])).value[0])
            && values.Some?
            && |nonIndexed| <= |values.value|
            && forall i :: 0 <= i < |nonIndexed| ==> entry[nonIndexed[i].name] == values.value[i]
  {
    var indexed := Indexed(event.inputs);
    var nonIndexed := NonIndexed(event.inputs);
    IndexedDistinct(event.inputs);
    PartitionDisjoint(event.inputs);
    EventKeyReserved(event.inputs);
    var values := decode(Types(nonIndexed), Drop2(log.data)).value;
    BothPassesFields(event.name, indexed, nonIndexed, log.topics, values, decode);
  }
}
