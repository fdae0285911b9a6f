/** The wire format of the five domain errors: a known error is a bare code, any other error is an
    object with a code, an optional payload and extra members. */
module Codec {
  import opened Wrappers

  datatype Json =
    | Null
    | Bool(b: bool)
    | Number(n: int)
    | Text(s: string)
    | Array(items: seq<Json>)
    | Object(members: map<string, Json>)

  datatype Variant =
    | AlreadyTerminal
    | Forbidden
    | IdempotencyConflict
    | InvalidRequest
    | NotDue
    | NotRequester
    | RequestNotFound

  datatype Operation = CancelOperation | DecideOperation | ExpireOperation | ReadOperation | RequestOperation

  /** The variants the operation's error type declares. */
  predicate Declares(operation: Operation, v: Variant) {
    match operation
    case CancelOperation => v in {AlreadyTerminal, Forbidden, InvalidRequest, NotRequester, RequestNotFound}
    case DecideOperation => v in {AlreadyTerminal, Forbidden, InvalidRequest, RequestNotFound}
    case ExpireOperation => v in {AlreadyTerminal, Forbidden, InvalidRequest, NotDue, RequestNotFound}
    case ReadOperation => v in {Forbidden, InvalidRequest, RequestNotFound}
    case RequestOperation => v in {Forbidden, IdempotencyConflict, InvalidRequest}
  }

  datatype DomainError =
    | Known(variant: Variant)
    | Unknown(code: string, payload: Option<Json>, extra: map<string, Json>)

  function Code(v: Variant): string {
    match v
    case AlreadyTerminal => "already_terminal"
    case Forbidden => "forbidden"
    case IdempotencyConflict => "idempotency_conflict"
    case InvalidRequest => "invalid_request"
    case NotDue => "not_due"
    case NotRequester => "not_requester"
    case RequestNotFound => "request_not_found"
  }

  lemma CodesDiffer(v: Variant, w: Variant)
    ensures Code(v) == Code(w) ==> v == w
  {
    assert |Code(v)| == match v
                        case AlreadyTerminal => 16
                        case Forbidden => 9
                        case IdempotencyConflict => 20
                        case InvalidRequest => 15
                        case NotDue => 7
                        case NotRequester => 13
                        case RequestNotFound => 17;
    assert |Code(w)| == match w
                        case AlreadyTerminal => 16
                        case Forbidden => 9
                        case IdempotencyConflict => 20
                        case InvalidRequest => 15
                        case NotDue => 7
                        case NotRequester => 13
                        case RequestNotFound => 17;
  }

  // What the serializer emits: a string, or a map with an announced length and entries in order.
  datatype Wire = WireText(s: string) | WireMap(announced: nat, entries: seq<(string, Json)>)

  /** A reader keeps the last of several entries with one key. */
  function MapOf(entries: seq<(string, Json)>): map<string, Json> {
    if |entries| == 0 then map[]
    else MapOf(entries[..|entries| - 1])[entries[|entries| - 1].0 := entries[|entries| - 1].1]
  }

  function Parse(w: Wire): Json {
    match w
    case WireText(s) => Text(s)
    case WireMap(_, entries) => Object(MapOf(entries))
  }

  /** The order of a map keyed by strings: by the first character that differs. */
  predicate Before(a: string, b: string) {
    b != "" && (a == "" || a[0] < b[0] || (a[0] == b[0] && Before(a[1..], b[1..])))
  }

  lemma {:induction false} BeforeIsTotal(a: string, b: string)
    ensures Before(a, b) || a == b || Before(b, a)
    ensures !(Before(a, b) && Before(b, a)) && !(Before(a, b) && a == b)
  {
    if a == "" || b == "" {
    } else {
      BeforeIsTotal(a[1..], b[1..]);
      assert a == [a[0]] + a[1..] && b == [b[0]] + b[1..];
    }
  }

  lemma {:induction false} BeforeIsTransitive(a: string, b: string, c: string)
    requires Before(a, b) && Before(b, c)
    ensures Before(a, c)
  {
    if a == "" {
    } else if a[0] == b[0] == c[0] {
      BeforeIsTransitive(a[1..], b[1..], c[1..]);
    }
  }

  /** One key comes before another when it is a proper beginning of it, or has the smaller character
      where they first differ. */
  lemma {:induction false} BeforeIsLexicographic(a: string, b: string)
    ensures Before(a, b) <==>
            exists n: nat :: && n <= |a| && n < |b| && a[..n] == b[..n]
                        && (n == |a| || (n < |a| && a[n] < b[n]))
  {
    if a == "" || b == "" {
      if a == "" && b != "" {
        assert a[..0] == b[..0];
      }
    } else {
      BeforeIsLexicographic(a[1..], b[1..]);
      if Before(a, b) {
        if a[0] < b[0] {
          assert a[..0] == b[..0];
        } else {
          var n: nat :| && n <= |a[1..]| && n < |b[1..]| && a[1..][..n] == b[1..][..n]
                        && (n == |a[1..]| || (n < |a[1..]| && a[1..][n] < b[1..][n]));
          assert a[..n + 1] == [a[0]] + a[1..][..n] && b[..n + 1] == [b[0]] + b[1..][..n];
        }
      }
      if n: nat :| && n <= |a| && n < |b| && a[..n] == b[..n] && (n == |a| || (n < |a| && a[n] < b[n])) {
        if n > 0 {
          assert a[0] == a[..n][0] == b[0];
          assert a[1..][..n - 1] == a[..n][1..] && b[1..][..n - 1] == b[..n][1..];
        }
      }
    }
  }

  predicate Ascending(entries: seq<(string, Json)>) {
    forall i, j :: 0 <= i < j < |entries| ==> Before(entries[i].0, entries[j].0)
  }

  /** Some key comes before all others. */
  lemma {:induction false} FirstKey(keys: set<string>) returns (first: string)
    requires keys != {}
    ensures first in keys && forall k :: k in keys && k != first ==> Before(first, k)
  {
    var any :| any in keys;
    if keys == {any} {
      first := any;
    } else {
      var rest := keys - {any};
      assert keys == rest + {any};
      var other := FirstKey(rest);
      BeforeIsTotal(any, other);
      first := if Before(any, other) then any else other;
      forall k | k in keys && k != first
        ensures Before(first, k)
      {
        if first == any && k != other {
          BeforeIsTransitive(any, other, k);
        }
      }
    }
  }

  /** The wire form of an error: code, then payload, then every extra member once, in key order; the
      announced length is the number of entries. */
  ghost predicate Serializes(e: DomainError, w: Wire) {
    match e
    case Known(v) => w == WireText(Code(v))
    case Unknown(code, payload, extra) =>
      && w.WireMap? && w.announced == |w.entries|
      && exists rest ::
           && MapOf(rest) == extra && |rest| == |extra| && Ascending(rest)
           && w.entries == [("code", Text(code))] + PayloadEntry(payload) + rest
  }

  function PayloadEntry(payload: Option<Json>): seq<(string, Json)> {
    match payload case None => [] case Some(p) => [("payload", p)]
  }

  method Serialize(e: DomainError) returns (w: Wire)
    ensures Serializes(e, w)
  {
    match e {
      case Known(v) => w := WireText(Code(v));
      case Unknown(code, payload, extra) =>
        var announced := 1 + (if payload.Some? then 1 else 0) + |extra|;
        var entries := [("code", Text(code))];
        if payload.Some? {
          entries := entries + [("payload", payload.value)];
        }
        assert entries == [("code", Text(code))] + PayloadEntry(payload);
        ghost var rest;
        entries, rest := WriteExtra(entries, extra);
        w := WireMap(announced, entries);
        assert w.entries == [("code", Text(code))] + PayloadEntry(payload) + rest;
    }
  }

  lemma MapOfExtended(entries: seq<(string, Json)>, item: (string, Json))
    ensures MapOf(entries + [item]) == MapOf(entries)[item.0 := item.1]
  {
    assert (entries + [item])[..|entries|] == entries;
  }

  /** `left` and `done` split `all` between them. */
  ghost predicate Splits<V>(all: map<string, V>, left: map<string, V>, done: map<string, V>) {
    && (forall k :: k in all <==> k in left || k in done)
    && (forall k :: k in left ==> k !in done && left[k] == all[k])
    && (forall k :: k in done ==> done[k] == all[k])
  }

  lemma MoveMember<V>(all: map<string, V>, left: map<string, V>, done: map<string, V>, key: string)
    requires Splits(all, left, done) && key in left
    ensures Splits(all, left - {key}, done[key := left[key]])
    ensures |left - {key}| == |left| - 1 && |done[key := left[key]]| == |done| + 1
  {
    FewerMembers(left, key);
    MoreMembers(done, key, left[key]);
  }

  lemma FewerMembers<V>(m: map<string, V>, key: string)
    requires key in m
    ensures |m - {key}| == |m| - 1
  {
    assert (m - {key}).Keys == m.Keys - {key};
  }

  lemma MoreMembers<V>(m: map<string, V>, key: string, value: V)
    requires key !in m
    ensures |m[key := value]| == |m| + 1
  {
    assert m[key := value].Keys == m.Keys + {key};
  }

  lemma SplitDone<V>(all: map<string, V>, done: map<string, V>)
    requires Splits(all, map[], done)
    ensures done == all
  {
  }

  lemma EmptyExtra()
    ensures MapOf([]) == map[] && Ascending([])
  {
  }

  lemma AscendingExtended(entries: seq<(string, Json)>, item: (string, Json))
    requires Ascending(entries) && forall i :: 0 <= i < |entries| ==> Before(entries[i].0, item.0)
    ensures Ascending(entries + [item])
  {
  }

  /** One entry for each extra member, in key order. */
  method WriteExtra(head: seq<(string, Json)>, extra: map<string, Json>)
    returns (entries: seq<(string, Json)>, ghost rest: seq<(string, Json)>)
    ensures entries == head + rest && MapOf(rest) == extra && |rest| == |extra| && Ascending(rest)
  {
    hide Before, Ascending, MapOf;
    entries, rest := head, [];
    EmptyExtra();
    var left, done := extra, map[];
    while left != map[]
      invariant Splits(extra, left, done)
      invariant MapOf(rest) == done && |rest| == |done| && |left| + |done| == |extra|
      invariant entries == head + rest && Ascending(rest)
      invariant forall i, k :: 0 <= i < |rest| && k in left ==> Before(rest[i].0, k)
      decreases |left|
    {
      ghost var first := FirstKey(left.Keys);
      var key :| key in left && forall k :: k in left && k != key ==> Before(key, k);
      var item := (key, left[key]);
      MapOfExtended(rest, item);
      AscendingExtended(rest, item);
      MoveMember(extra, left, done, key);
      entries, rest := entries + [item], rest + [item];
      left, done := left - {key}, done[key := left[key]];
    }
    SplitDone(extra, done);
  }

  /** The known variant with this code, if the operation declares one. */
  function Lookup(operation: Operation, code: string): Option<Variant> {
    if code == "already_terminal" && Declares(operation, AlreadyTerminal) then Some(AlreadyTerminal)
    else if code == "forbidden" && Declares(operation, Forbidden) then Some(Forbidden)
    else if code == "idempotency_conflict" && Declares(operation, IdempotencyConflict) then Some(IdempotencyConflict)
    else if code == "invalid_request" && Declares(operation, InvalidRequest) then Some(InvalidRequest)
    else if code == "not_due" && Declares(operation, NotDue) then Some(NotDue)
    else if code == "not_requester" && Declares(operation, NotRequester) then Some(NotRequester)
    else if code == "request_not_found" && Declares(operation, RequestNotFound) then Some(RequestNotFound)
    else None
  }

  /** The variant found is declared and has the code; without one, no declared variant has it. */
  lemma LookupIsExact(operation: Operation, code: string)
    ensures forall v: Variant :: Lookup(operation, code) == Some(v) <==> Declares(operation, v) && Code(v) == code
  {
    hide Lookup, Code;
    forall v: Variant
      ensures Lookup(operation, code) == Some(v) <==> Declares(operation, v) && Code(v) == code
    {
      if Declares(operation, v) && Code(v) == code {
        KnownCodeIsFound(operation, v);
      }
      if Lookup(operation, code) == Some(v) {
        FoundIsDeclared(operation, code);
      }
    }
  }

  lemma FoundIsDeclared(operation: Operation, code: string)
    requires Lookup(operation, code).Some?
    ensures Declares(operation, Lookup(operation, code).value) && Code(Lookup(operation, code).value) == code
  {
  }

  /** The codes of each operation's declared errors. */
  lemma DeclaredCodes(operation: Operation, v: Variant)
    ensures Declares(operation, v) <==>
            Code(v) in match operation
                       case CancelOperation =>
                         ["already_terminal", "forbidden", "invalid_request", "not_requester", "request_not_found"]
                       case DecideOperation => ["already_terminal", "forbidden", "invalid_request", "request_not_found"]
                       case ExpireOperation =>
                         ["already_terminal", "forbidden", "invalid_request", "not_due", "request_not_found"]
                       case ReadOperation => ["forbidden", "invalid_request", "request_not_found"]
                       case RequestOperation => ["forbidden", "idempotency_conflict", "invalid_request"]
  {
    assert |"already_terminal"| == 16 && |"forbidden"| == 9 && |"idempotency_conflict"| == 20;
    assert |"invalid_request"| == 15 && |"not_due"| == 7 && |"not_requester"| == 13 && |"request_not_found"| == 17;
  }

  /** None is a rejected value. */
  function Decode(operation: Operation, value: Json): Option<DomainError> {
    match value
    case Text(code) =>
      var known := Lookup(operation, code);
      if known.Some? then Some(Known(known.value)) else Some(Unknown(code, None, map[]))
    case Object(members) =>
      if "code" !in members || !members["code"].Text? then None
      else Some(Unknown(members["code"].s,
                        if "payload" in members then Some(members["payload"]) else None,
                        members - {"code", "payload"}))
    case _ => None
  }

  /** A bare code is the declared variant with that code, or an unknown error that keeps the code; an
      object is an unknown error that keeps its code, its payload and all other members. */
  method Deserialize(operation: Operation, value: Json) returns (r: Option<DomainError>)
    ensures r == Decode(operation, value)
    ensures match value
            case Text(c) =>
              && (forall v: Variant :: Declares(operation, v) && Code(v) == c ==> r == Some(Known(v)))
              && ((forall v: Variant :: Declares(operation, v) ==> Code(v) != c) ==> r == Some(Unknown(c, None, map[])))
            case Object(members) =>
              if "code" in members && members["code"].Text? then
                r == Some(Unknown(members["code"].s, if "payload" in members then Some(members["payload"]) else None,
                                  map k | k in members && k != "code" && k != "payload" :: members[k]))
              else r == None
            case _ => r == None
  {
    LookupIsExact(operation, if value.Text? then value.s else "");
    hide Lookup, Code;
    match value {
      case Text(code) =>
        var known := Lookup(operation, code);
        r := Some(if known.Some? then Known(known.value) else Unknown(code, None, map[]));
      case Object(members) =>
        var remaining := members;
        var code := if "code" in remaining then Some(remaining["code"]) else None;
        remaining := remaining - {"code"};
        if code.None? || !code.value.Text? {
          return None;
        }
        var payload := if "payload" in remaining then Some(remaining["payload"]) else None;
        remaining := remaining - {"payload"};
        assert remaining == members - {"code", "payload"};
        assert remaining == map k | k in members && k != "code" && k != "payload" :: members[k];
        r := Some(Unknown(code.value.s, payload, remaining));
      case _ => r := None;
    }
  }

  /** Extra members do not use the two reserved names. */
  predicate Canonical(e: DomainError) {
    e.Unknown? ==> "code" !in e.extra && "payload" !in e.extra
  }

  lemma {:induction false} MapOfConcat(a: seq<(string, Json)>, b: seq<(string, Json)>)
    ensures MapOf(a + b) == MapOf(a) + MapOf(b)
  {
    if |b| == 0 {
      assert a + b == a;
    } else {
      MapOfConcat(a, b[..|b| - 1]);
      assert (a + b)[..|a + b| - 1] == a + b[..|b| - 1];
    }
  }

  lemma {:induction false} KeysOfEntries(entries: seq<(string, Json)>, key: string)
    ensures key in MapOf(entries) <==> exists i :: 0 <= i < |entries| && entries[i].0 == key
  {
    if |entries| == 0 {
    } else {
      var n := |entries| - 1;
      KeysOfEntries(entries[..n], key);
      if i :| 0 <= i < |entries| && entries[i].0 == key && i != n {
        assert entries[..n][i].0 == key;
      }
    }
  }

  lemma LastIsGreatest(entries: seq<(string, Json)>, key: string)
    requires Ascending(entries) && |entries| > 0 && key in MapOf(entries)
    ensures key == entries[|entries| - 1].0 || Before(key, entries[|entries| - 1].0)
  {
    hide Before;
    KeysOfEntries(entries, key);
  }

  lemma LastIsNew(entries: seq<(string, Json)>)
    requires Ascending(entries) && |entries| > 0
    ensures entries[|entries| - 1].0 !in MapOf(entries[..|entries| - 1])
  {
    hide Before;
    var n := |entries| - 1;
    KeysOfEntries(entries[..n], entries[n].0);
    BeforeIsTotal(entries[n].0, entries[n].0);
  }

  lemma AddedAndRemoved<V>(m: map<string, V>, key: string, value: V)
    requires key !in m
    ensures m[key := value] - {key} == m
  {
  }

  /** Taking away the last of several ascending entries takes away its key. */
  lemma WithoutLast(entries: seq<(string, Json)>)
    requires Ascending(entries) && |entries| > 0
    ensures var n := |entries| - 1;
            && MapOf(entries[..n]) == MapOf(entries) - {entries[n].0}
            && entries[n].0 in MapOf(entries) && MapOf(entries)[entries[n].0] == entries[n].1
  {
    hide Before, Ascending;
    LastIsNew(entries);
    var n := |entries| - 1;
    AddedAndRemoved(MapOf(entries[..n]), entries[n].0, entries[n].1);
  }

  lemma {:induction false} AscendingIsUnique(a: seq<(string, Json)>, b: seq<(string, Json)>)
    requires Ascending(a) && Ascending(b) && MapOf(a) == MapOf(b)
    ensures a == b
  {
    hide Before;
    if |a| > 0 {
      WithoutLast(a);
    }
    if |b| > 0 {
      WithoutLast(b);
    }
    if |a| > 0 && |b| > 0 {
      var m, n := |a| - 1, |b| - 1;
      LastIsGreatest(a, b[n].0);
      LastIsGreatest(b, a[m].0);
      BeforeIsTotal(a[m].0, b[n].0);
      AscendingIsUnique(a[..m], b[..n]);
      assert a == a[..m] + [a[m]] && b == b[..n] + [b[n]];
    }
  }

  /** An error has one wire form. */
  lemma WireIsUnique(e: DomainError, w: Wire, w': Wire)
    requires Serializes(e, w) && Serializes(e, w')
    ensures w == w'
  {
    if e.Unknown? {
      var head := [("code", Text(e.code))] + PayloadEntry(e.payload);
      var rest :| MapOf(rest) == e.extra && |rest| == |e.extra| && Ascending(rest) && w.entries == head + rest;
      var rest' :| MapOf(rest') == e.extra && |rest'| == |e.extra| && Ascending(rest') && w'.entries == head + rest';
      AscendingIsUnique(rest, rest');
    }
  }

  lemma KnownCodeIsFound(operation: Operation, v: Variant)
    requires Declares(operation, v)
    ensures Lookup(operation, Code(v)) == Some(v)
  {
    forall w: Variant | Code(w) == Code(v)
      ensures v == w
    {
      CodesDiffer(v, w);
    }
    assert Code(AlreadyTerminal) == "already_terminal" && Code(Forbidden) == "forbidden" && Code(NotDue) == "not_due"
           && Code(IdempotencyConflict) == "idempotency_conflict" && Code(InvalidRequest) == "invalid_request"
           && Code(NotRequester) == "not_requester" && Code(RequestNotFound) == "request_not_found";
  }

  /** What a reader sees of an unknown error. */
  lemma WireMembers(e: DomainError, w: Wire)
    requires e.Unknown? && Serializes(e, w)
    ensures Parse(w) == Object(map["code" := Text(e.code)]
                               + (if e.payload.Some? then map["payload" := e.payload.value] else map[])
                               + e.extra)
  {
    var rest :| MapOf(rest) == e.extra && |rest| == |e.extra|
                && w.entries == [("code", Text(e.code))] + PayloadEntry(e.payload) + rest;
    var head := [("code", Text(e.code))];
    assert MapOf(head) == map["code" := Text(e.code)] by {
      assert head[..0] == [];
    }
    var p := PayloadEntry(e.payload);
    assert MapOf(p) == if e.payload.Some? then map["payload" := e.payload.value] else map[] by {
      if e.payload.Some? {
        assert p[..0] == [];
      }
    }
    MapOfConcat(head, p);
    MapOfConcat(head + p, rest);
  }

  lemma UnknownRoundTrip(operation: Operation, e: DomainError, w: Wire)
    requires e.Unknown? && Serializes(e, w)
    ensures Decode(operation, Parse(w)) == Some(e) <==> Canonical(e)
  {
    hide Serializes, Lookup;
    WireMembers(e, w);
    var members := Parse(w).members;
    assert "code" !in members - {"code", "payload"} && "payload" !in members - {"code", "payload"};
    if Canonical(e) {
      assert members - {"code", "payload"} == e.extra;
    }
  }

  /** Decoding what was encoded gives the error back exactly when its extra members avoid the two
      reserved names. */
  lemma RoundTrip(operation: Operation, e: DomainError, w: Wire)
    requires Serializes(e, w) && (e.Known? ==> Declares(operation, e.variant))
    ensures Decode(operation, Parse(w)) == Some(e) <==> Canonical(e)
  {
    if e.Known? {
      hide Lookup, Code;
      KnownCodeIsFound(operation, e.variant);
    } else {
      UnknownRoundTrip(operation, e, w);
    }
  }

  /** Every decoded error is canonical and of the operation's own type, so decoding, encoding and
      decoding again changes nothing. */
  lemma DecodeEncodeDecode(operation: Operation, value: Json, w: Wire)
    requires Decode(operation, value).Some? && Serializes(Decode(operation, value).value, w)
    ensures Canonical(Decode(operation, value).value)
    ensures Decode(operation, Parse(w)) == Decode(operation, value)
  {
    var e := Decode(operation, value).value;
    if e.Known? {
      assert Declares(operation, e.variant);
    }
    RoundTrip(operation, e, w);
  }

  /** Exactly strings and objects with a string code are accepted. */
  lemma AcceptedValues(operation: Operation, value: Json)
    ensures Decode(operation, value).Some? <==>
              value.Text? || (value.Object? && "code" in value.members && value.members["code"].Text?)
  {
  }
}
