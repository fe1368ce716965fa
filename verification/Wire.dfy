/** The contract the two protocols rely on from `BinarySerializer`: a message is
    a run of numbered properties followed by a terminator, every value is
    self-delimiting, and reading stops at the terminator without looking at what
    follows. A payload is a `std::string`, so the wire is a string here too. */
module Wire {
  import opened Prelude

  datatype Kind = KBool | KUint | KInt | KStr | KStrs

  /** One property value. Lists of logical types travel as the list of their own
      serialised forms, maps as alternating keys and values. */
  datatype Value =
    | VBool(b: bool)
    | VUint(n: nat)
    | VInt(i: int)
    | VStr(s: string)
    | VStrs(strs: seq<string>)
  {
    function Kind(): Kind {
      match this
      case VBool(_) => KBool
      case VUint(_) => KUint
      case VInt(_) => KInt
      case VStr(_) => KStr
      case VStrs(_) => KStrs
    }
  }

  /** Field id written by `End()`. */
  const TERMINATOR: nat := 0xFFFF

  datatype Read<+T> = Got(value: T, rest: string) | Bad

  function Char(n: nat): char
    requires n < 256
  {
    n as char
  }

  function EncodeUint(n: nat): string {
    if n < 128 then [Char(n)] else [Char(128 + n % 128)] + EncodeUint(n / 128)
  }

  function DecodeUint(s: string): (r: Read<nat>)
    ensures r.Got? ==> |r.rest| < |s|
  {
    if s == "" then Bad
    else if (s[0] as int) < 128 then Got(s[0] as int, s[1..])
    else if (s[0] as int) < 256 then
      match DecodeUint(s[1..])
      case Bad => Bad
      case Got(high, rest) => Got((s[0] as int - 128) + 128 * high, rest)
    else Bad
  }

  function EncodeStr(s: string): string {
    EncodeUint(|s|) + s
  }

  function DecodeStr(s: string): (r: Read<string>)
    ensures r.Got? ==> |r.rest| < |s|
  {
    match DecodeUint(s)
    case Bad => Bad
    case Got(n, body) => if n <= |body| then Got(body[..n], body[n..]) else Bad
  }

  function EncodeStrs(strs: seq<string>): string {
    if strs == [] then "" else EncodeStr(strs[0]) + EncodeStrs(strs[1..])
  }

  function DecodeStrs(count: nat, s: string): (r: Read<seq<string>>)
    ensures r.Got? ==> |r.rest| <= |s|
  {
    if count == 0 then Got([], s)
    else
      match DecodeStr(s)
      case Bad => Bad
      case Got(head, tail) =>
        match DecodeStrs(count - 1, tail)
        case Bad => Bad
        case Got(more, rest) => Got([head] + more, rest)
  }

  function Encode(v: Value): string {
    match v
    case VBool(b) => [Char(if b then 1 else 0)]
    case VUint(n) => EncodeUint(n)
    case VInt(i) => [Char(if i < 0 then 1 else 0)] + EncodeUint(if i < 0 then -i else i)
    case VStr(s) => EncodeStr(s)
    case VStrs(strs) => EncodeUint(|strs|) + EncodeStrs(strs)
  }

  function Decode(kind: Kind, s: string): (r: Read<Value>)
    ensures r.Got? ==> r.value.Kind() == kind
  {
    match kind
    case KBool => if s != "" then Got(VBool(s[0] as int != 0), s[1..]) else Bad
    case KUint => (match DecodeUint(s)
                   case Bad => Bad
                   case Got(n, rest) => Got(VUint(n), rest))
    case KInt => if s == "" then Bad else
                 (match DecodeUint(s[1..])
                  case Bad => Bad
                  case Got(n, rest) => Got(VInt(if s[0] as int != 0 then 0 - n else n as int), rest))
    case KStr => (match DecodeStr(s)
                  case Bad => Bad
                  case Got(t, rest) => Got(VStr(t), rest))
    case KStrs => match DecodeUint(s)
                  case Bad => Bad
                  case Got(n, body) =>
                    match DecodeStrs(n, body)
                    case Bad => Bad
                    case Got(strs, rest) => Got(VStrs(strs), rest)
  }

  /** `WriteProperty` for properties `id, id + 1, ...`, then `End()`. */
  function EncodeFields(id: nat, vs: seq<Value>): string
    decreases |vs|
  {
    if vs == [] then EncodeUint(TERMINATOR)
    else EncodeUint(id) + (Encode(vs[0]) + EncodeFields(id + 1, vs[1..]))
  }

  /** `ReadProperty` for the expected kinds, then `End()`. */
  function DecodeFields(id: nat, kinds: seq<Kind>, s: string): (r: Result<seq<Value>>)
    ensures r.Ok? ==> |r.value| == |kinds| && forall i :: 0 <= i < |kinds| ==> r.value[i].Kind() == kinds[i]
    decreases |kinds|
  {
    match DecodeUint(s)
    case Bad => Err
    case Got(tag, body) =>
      if kinds == [] then (if tag == TERMINATOR then Ok([]) else Err)
      else if tag != id then Err
      else
        match Decode(kinds[0], body)
        case Bad => Err
        case Got(v, rest) =>
          match DecodeFields(id + 1, kinds[1..], rest)
          case Err => Err
          case Ok(more) => Ok([v] + more)
  }

  function Kinds(vs: seq<Value>): seq<Kind> {
    seq(|vs|, i requires 0 <= i < |vs| => vs[i].Kind())
  }

  // Reading a property of known kind out of a decoded message.

  function UintAt(vs: seq<Value>, i: nat): nat {
    if i < |vs| && vs[i].VUint? then vs[i].n else 0
  }

  function IntAt(vs: seq<Value>, i: nat): int {
    if i < |vs| && vs[i].VInt? then vs[i].i else 0
  }

  function BoolAt(vs: seq<Value>, i: nat): bool {
    i < |vs| && vs[i].VBool? && vs[i].b
  }

  function StrAt(vs: seq<Value>, i: nat): string {
    if i < |vs| && vs[i].VStr? then vs[i].s else ""
  }

  function StrsAt(vs: seq<Value>, i: nat): seq<string> {
    if i < |vs| && vs[i].VStrs? then vs[i].strs else []
  }

  lemma {:induction false} UintRoundTrip(n: nat, rest: string)
    ensures DecodeUint(EncodeUint(n) + rest) == Got(n, rest)
  {
    if n < 128 {
      assert ([Char(n)] + rest)[1..] == rest;
    } else {
      var low := Char(128 + n % 128);
      assert EncodeUint(n) + rest == [low] + (EncodeUint(n / 128) + rest);
      UintRoundTrip(n / 128, rest);
    }
  }

  lemma StrRoundTrip(s: string, rest: string)
    ensures DecodeStr(EncodeStr(s) + rest) == Got(s, rest)
  {
    hide EncodeUint, DecodeUint;
    assert EncodeStr(s) + rest == EncodeUint(|s|) + (s + rest);
    UintRoundTrip(|s|, s + rest);
    assert (s + rest)[..|s|] == s && (s + rest)[|s|..] == rest;
  }

  lemma {:induction false} StrsRoundTrip(strs: seq<string>, rest: string)
    ensures DecodeStrs(|strs|, EncodeStrs(strs) + rest) == Got(strs, rest)
  {
    hide EncodeStr, DecodeStr;
    if strs == [] {
      assert EncodeStrs(strs) + rest == rest;
    } else {
      assert EncodeStrs(strs) + rest == EncodeStr(strs[0]) + (EncodeStrs(strs[1..]) + rest);
      StrRoundTrip(strs[0], EncodeStrs(strs[1..]) + rest);
      StrsRoundTrip(strs[1..], rest);
      assert strs == [strs[0]] + strs[1..];
    }
  }

  lemma IntRoundTrip(i: int, rest: string)
    ensures Decode(KInt, Encode(VInt(i)) + rest) == Got(VInt(i), rest)
  {
    hide EncodeUint, DecodeUint;
    var m := if i < 0 then -i else i;
    var sign := [Char(if i < 0 then 1 else 0)];
    assert Encode(VInt(i)) + rest == sign + (EncodeUint(m) + rest);
    UintRoundTrip(m, rest);
  }

  lemma ListRoundTrip(strs: seq<string>, rest: string)
    ensures Decode(KStrs, Encode(VStrs(strs)) + rest) == Got(VStrs(strs), rest)
  {
    hide EncodeUint, DecodeUint, EncodeStrs, DecodeStrs;
    assert Encode(VStrs(strs)) + rest == EncodeUint(|strs|) + (EncodeStrs(strs) + rest);
    UintRoundTrip(|strs|, EncodeStrs(strs) + rest);
    StrsRoundTrip(strs, rest);
  }

  lemma ValueRoundTrip(v: Value, rest: string)
    ensures Decode(v.Kind(), Encode(v) + rest) == Got(v, rest)
  {
    match v
    case VBool(b) =>
      assert (Encode(v) + rest)[1..] == rest;
    case VUint(n) => UintRoundTrip(n, rest);
    case VInt(i) => IntRoundTrip(i, rest);
    case VStr(s) => StrRoundTrip(s, rest);
    case VStrs(strs) => ListRoundTrip(strs, rest);
  }

  /** Reading what was written gives it back, whatever follows the message. */
  lemma {:induction false} FieldsRoundTrip(id: nat, vs: seq<Value>, rest: string)
    ensures DecodeFields(id, Kinds(vs), EncodeFields(id, vs) + rest) == Ok(vs)
    decreases |vs|
  {
    hide EncodeUint, DecodeUint, Encode, Decode;
    if vs == [] {
      UintRoundTrip(TERMINATOR, rest);
    } else {
      var tail := EncodeFields(id + 1, vs[1..]) + rest;
      assert EncodeFields(id, vs) + rest == EncodeUint(id) + (Encode(vs[0]) + tail);
      UintRoundTrip(id, Encode(vs[0]) + tail);
      ValueRoundTrip(vs[0], tail);
      assert Kinds(vs)[1..] == Kinds(vs[1..]);
      FieldsRoundTrip(id + 1, vs[1..], rest);
      assert vs == [vs[0]] + vs[1..];
    }
  }

  /** The same for a whole message that is read with the kinds it was written with. */
  lemma MessageRoundTrip(kinds: seq<Kind>, vs: seq<Value>)
    requires kinds == Kinds(vs)
    ensures DecodeFields(1, kinds, EncodeFields(1, vs)) == Ok(vs) && EncodeFields(1, vs) != ""
  {
    FieldsRoundTrip(1, vs, "");
    assert EncodeFields(1, vs) + "" == EncodeFields(1, vs);
  }

  // ---- maps --------------------------------------------------------------

  /** The order `std::map<string, ...>` iterates in. */
  predicate Leq(a: string, b: string) {
    a == "" || (b != "" && (a[0] < b[0] || (a[0] == b[0] && Leq(a[1..], b[1..]))))
  }

  lemma {:induction false} LeqTotal(a: string, b: string)
    ensures Leq(a, b) || Leq(b, a)
    ensures Leq(a, b) && Leq(b, a) ==> a == b
  {
    if a != "" && b != "" {
      LeqTotal(a[1..], b[1..]);
      if a[0] == b[0] && a[1..] == b[1..] {
        assert a == [a[0]] + a[1..] == b;
      }
    }
  }

  lemma {:induction false} LeqTransitive(a: string, b: string, c: string)
    requires Leq(a, b) && Leq(b, c)
    ensures Leq(a, c)
  {
    if a != "" && a[0] == b[0] == c[0] {
      LeqTransitive(a[1..], b[1..], c[1..]);
    }
  }

  predicate IsLeast(k: string, keys: set<string>) {
    k in keys && forall x :: x in keys ==> Leq(k, x)
  }

  lemma {:induction false} LeastExists(keys: set<string>) returns (k: string)
    requires keys != {}
    ensures IsLeast(k, keys)
    decreases |keys|
  {
    k :| k in keys;
    LeqTotal(k, k);
    if keys - {k} != {} {
      var m := LeastExists(keys - {k});
      LeqTotal(k, m);
      if Leq(m, k) {
        k := m;
      } else {
        forall x | x in keys ensures Leq(k, x) {
          if x != k {
            LeqTransitive(k, m, x);
          }
        }
      }
    }
  }

  function Least(keys: set<string>): (k: string)
    requires keys != {}
    ensures IsLeast(k, keys)
  {
    LeastUnique(keys);
    var k :| k in keys && IsLeast(k, keys);
    k
  }

  lemma LeastUnique(keys: set<string>)
    requires keys != {}
    ensures exists k :: IsLeast(k, keys)
    ensures forall k, m :: IsLeast(k, keys) && IsLeast(m, keys) ==> k == m
  {
    var _ := LeastExists(keys);
    forall k, m | IsLeast(k, keys) && IsLeast(m, keys) ensures k == m {
      LeqTotal(k, m);
    }
  }

  /** A map in key order, keys and values alternating. */
  function MapEntries(m: map<string, string>): seq<string>
    decreases |m|
  {
    if m == map[] then []
    else
      var k := Least(m.Keys);
      [k, m[k]] + MapEntries(m - {k})
  }

  function EntriesMap(entries: seq<string>): map<string, string> {
    if |entries| < 2 then map[] else EntriesMap(entries[2..])[entries[0] := entries[1]]
  }

  lemma {:induction false} MapRoundTrip(m: map<string, string>)
    ensures EntriesMap(MapEntries(m)) == m
    decreases |m|
  {
    if m != map[] {
      var k := Least(m.Keys);
      MapRoundTrip(m - {k});
      assert MapEntries(m)[2..] == MapEntries(m - {k});
      assert (m - {k})[k := m[k]] == m;
    }
  }
}
