/** Configuration access on the Velocity proxy (`VelocityMethods`): a parsed
    YAML document is a tree of maps, lists and scalars; a dotted path walks
    down through nested maps, and the typed getters convert what is found,
    falling back to a default when nothing usable is there. */
module VelocityConfig {
  import S = JavaStrings

  /** A parsed YAML value, as SnakeYAML hands it over. A map keeps its
      entries in document order (a LinkedHashMap); `Null` is Java's null. */
  datatype Value =
    | MapValue(entries: seq<(string, Value)>)
    | BoolValue(b: bool)
    | StrValue(s: string)
    | IntValue(i: int)
    | ListValue(items: seq<Value>)
    | Null

  /** `Map.get`: the value of the first entry with `key`, or null. */
  function Get(entries: seq<(string, Value)>, key: string): (v: Value)
    ensures (forall i :: 0 <= i < |entries| ==> entries[i].0 != key) ==> v == Null
    ensures v != Null ==> exists i :: 0 <= i < |entries| && entries[i] == (key, v)
    ensures forall i :: FirstWith(entries, key, i) ==> v == entries[i].1
  {
    if entries == [] then Null
    else if entries[0].0 == key then entries[0].1
    else Get(entries[1..], key)
  }

  /** Entry `i` is the first one with `key`. */
  predicate FirstWith(entries: seq<(string, Value)>, key: string, i: int) {
    0 <= i < |entries| && entries[i].0 == key && forall j :: 0 <= j < i ==> entries[j].0 != key
  }

  /** Descends one key per segment; anything that is not a map on the way
      makes the result null. */
  function Lookup(v: Value, segments: seq<string>): (r: Value)
    ensures segments == [] ==> r == v
    ensures segments != [] && !v.MapValue? ==> r == Null
    decreases |segments|
  {
    if segments == [] then v
    else if !v.MapValue? then Null
    else Lookup(Get(v.entries, segments[0]), segments[1..])
  }

  /** `getPathValue`: null unless `file` is a map; otherwise the path is
      split on '.' (trailing empty segments dropped) and walked down. */
  function PathValue(file: Value, path: string): (r: Value)
    ensures !file.MapValue? ==> r == Null
  {
    if !file.MapValue? then Null else Lookup(file, S.Split(path, '.'))
  }

  /** `getPathValue`, as the loop over the path segments. */
  method GetPathValue(file: Value, path: string) returns (value: Value)
    ensures value == PathValue(file, path)
  {
    if !file.MapValue? {
      return Null;
    }
    var parts := S.Split(path, '.');
    value := file;
    var i := 0;
    while i < |parts|
      invariant 0 <= i <= |parts|
      invariant Lookup(value, parts[i..]) == Lookup(file, parts)
    {
      if !value.MapValue? {
        return Null;
      }
      assert parts[i..][1..] == parts[i + 1..];
      value := Get(value.entries, parts[i]);
      i := i + 1;
    }
  }

  /** Descending along `a + b` is descending along `a`, then along `b`. */
  lemma {:induction false} LookupAppend(v: Value, a: seq<string>, b: seq<string>)
    ensures Lookup(v, a + b) == Lookup(Lookup(v, a), b)
    decreases |a|
  {
    if a != [] {
      assert (a + b)[0] == a[0] && (a + b)[1..] == a[1..] + b;
      if v.MapValue? {
        LookupAppend(Get(v.entries, a[0]), a[1..], b);
      } else if b != [] {
        assert Lookup(v, a + b) == Null;
      }
    } else {
      assert a + b == b;
    }
  }

  /** A path of non-empty, dot-free keys reaches the value found by
      descending through those keys one by one. */
  lemma PathOfKeys(file: Value, keys: seq<string>)
    requires file.MapValue?
    requires |keys| >= 1
    requires forall i :: 0 <= i < |keys| ==> keys[i] != [] && '.' !in keys[i]
    ensures PathValue(file, S.Join(keys, '.')) == Lookup(file, keys)
  {
    S.SplitJoin(keys, '.');
  }

  /** A trailing '.' is ignored, as Java's `split` drops the empty last segment. */
  lemma TrailingDotIgnored(file: Value, key: string)
    requires key != [] && '.' !in key
    ensures PathValue(file, key + ".") == PathValue(file, key)
  {
    S.SplitAllAfterField(key, '.', []);
    assert key + "." == key + ['.'] + [];
    var fields := S.SplitAll(key + ".", '.');
    assert fields == [key, []];
    assert S.DropTrailingEmpty(fields) == S.DropTrailingEmpty([key]) == [key];
    assert S.Split(key + ".", '.') == [key] == S.Split(key, '.');
  }

  /** `String.valueOf` of a configuration value. */
  function Stringify(v: Value): (r: string)
    ensures v.StrValue? ==> r == v.s
    ensures v.IntValue? ==> r == S.IntToString(v.i)
    ensures v.ListValue? ==> |r| >= 2 && r[0] == '[' && r[|r| - 1] == ']'
    ensures v.MapValue? ==> |r| >= 2 && r[0] == '{' && r[|r| - 1] == '}'
    decreases v
  {
    match v
    case StrValue(s) => s
    case BoolValue(b) => if b then "true" else "false"
    case IntValue(i) => S.IntToString(i)
    case Null => "null"
    case ListValue(items) =>
      "[" + JoinWith(seq(|items|, k requires 0 <= k < |items| => Stringify(items[k])), ", ") + "]"
    case MapValue(entries) =>
      "{" + JoinWith(seq(|entries|, k requires 0 <= k < |entries| =>
                      assert entries[k] in entries; EntryText(entries[k].0, Stringify(entries[k].1))), ", ") + "}"
  }

  function EntryText(key: string, value: string): string {
    key + "=" + value
  }

  /** `AbstractCollection.toString`-style joining: empty for no parts. */
  function JoinWith(parts: seq<string>, sep: string): string {
    if parts == [] then "" else if |parts| == 1 then parts[0] else parts[0] + sep + JoinWith(parts[1..], sep)
  }

  /** `Number.longValue` on an integer: the low 64 bits, two's complement. */
  function ToLong(x: int): (r: int)
    ensures -0x8000_0000_0000_0000 <= r < 0x8000_0000_0000_0000
    ensures (x - r) % 0x1_0000_0000_0000_0000 == 0
    ensures -0x8000_0000_0000_0000 <= x < 0x8000_0000_0000_0000 ==> r == x
  {
    var m := x % 0x1_0000_0000_0000_0000;
    if m >= 0x8000_0000_0000_0000 then m - 0x1_0000_0000_0000_0000 else m
  }

  /** `Number.intValue` on an integer: the low 32 bits, two's complement. */
  function ToInt(x: int): (r: int)
    ensures -0x8000_0000 <= r < 0x8000_0000
    ensures (x - r) % 0x1_0000_0000 == 0
    ensures -0x8000_0000 <= x < 0x8000_0000 ==> r == x
  {
    var m := x % 0x1_0000_0000;
    if m >= 0x8000_0000 then m - 0x1_0000_0000 else m
  }

  /** `getBoolean(file, path)`: the stored Boolean, FALSE for anything else. */
  function GetBoolean(file: Value, path: string): (r: bool)
    ensures r <==> PathValue(file, path) == BoolValue(true)
  {
    match PathValue(file, path)
    case BoolValue(b) => b
    case _ => false
  }

  /** `getBoolean(file, path, def)`. */
  function GetBooleanOr(file: Value, path: string, def: bool): (r: bool)
    ensures PathValue(file, path).BoolValue? ==> r == GetBoolean(file, path)
    ensures !PathValue(file, path).BoolValue? ==> r == def
  {
    match PathValue(file, path)
    case BoolValue(b) => b
    case _ => def
  }

  /** `getString(file, path)`: null when nothing is there, otherwise
      `String.valueOf` of what is there. */
  function GetString(file: Value, path: string): (r: S.Option<string>)
    ensures r.None? <==> PathValue(file, path) == Null
    ensures r.Some? ==> r.value == Stringify(PathValue(file, path))
    ensures PathValue(file, path).StrValue? ==> r == S.Some(PathValue(file, path).s)
  {
    var v := PathValue(file, path);
    if v == Null then S.None else S.Some(Stringify(v))
  }

  /** `getString(file, path, def)`. */
  function GetStringOr(file: Value, path: string, def: string): (r: string)
    ensures GetString(file, path).None? ==> r == def
    ensures GetString(file, path).Some? ==> r == GetString(file, path).value
    ensures PathValue(file, path) != Null ==> r == Stringify(PathValue(file, path))
    ensures PathValue(file, path).StrValue? ==> r == PathValue(file, path).s
  {
    match GetString(file, path)
    case None => def
    case Some(s) => s
  }

  /** `getLong(file, path)`: null unless a number is there. */
  function GetLong(file: Value, path: string): (r: S.Option<int>)
    ensures r.Some? <==> PathValue(file, path).IntValue?
    ensures r.Some? ==> r.value == ToLong(PathValue(file, path).i)
  {
    match PathValue(file, path)
    case IntValue(i) => S.Some(ToLong(i))
    case _ => S.None
  }

  /** `getInteger(file, path)`: null unless a number is there. */
  function GetInteger(file: Value, path: string): (r: S.Option<int>)
    ensures r.Some? <==> PathValue(file, path).IntValue?
    ensures r.Some? ==> r.value == ToInt(PathValue(file, path).i)
  {
    match PathValue(file, path)
    case IntValue(i) => S.Some(ToInt(i))
    case _ => S.None
  }

  /** `getLong(file, path, def)`. */
  function GetLongOr(file: Value, path: string, def: int): (r: int)
    ensures !PathValue(file, path).IntValue? ==> r == def
    ensures PathValue(file, path).IntValue? ==> r == ToLong(PathValue(file, path).i)
  {
    match GetLong(file, path)
    case None => def
    case Some(n) => n
  }

  /** `getInteger(file, path, def)`. */
  function GetIntegerOr(file: Value, path: string, def: int): (r: int)
    ensures !PathValue(file, path).IntValue? ==> r == def
    ensures PathValue(file, path).IntValue? ==> r == ToInt(PathValue(file, path).i)
  {
    match GetInteger(file, path)
    case None => def
    case Some(n) => n
  }

  /** `contains(file, path)`: something non-null is at the path. */
  function Contains(file: Value, path: string): (r: bool)
    ensures r <==> GetString(file, path).Some?
    ensures !file.MapValue? ==> !r
  {
    PathValue(file, path) != Null
  }

  /** `getKeys(file, path)`: the keys of the map at the path, in order;
      empty when no map is there. */
  method GetKeys(file: Value, path: string) returns (keys: seq<string>)
    ensures !PathValue(file, path).MapValue? ==> keys == []
    ensures PathValue(file, path).MapValue? ==>
              |keys| == |PathValue(file, path).entries| &&
              forall k :: 0 <= k < |keys| ==> keys[k] == PathValue(file, path).entries[k].0
  {
    var value := GetPathValue(file, path);
    if !value.MapValue? {
      return [];
    }
    keys := [];
    var i := 0;
    while i < |value.entries|
      invariant 0 <= i <= |value.entries|
      invariant |keys| == i
      invariant forall k :: 0 <= k < i ==> keys[k] == value.entries[k].0
    {
      keys := keys + [value.entries[i].0];
      i := i + 1;
    }
  }

  /** `getStringList(file, path)`: each element of the list at the path,
      stringified, in order; empty when no list is there. */
  method GetStringList(file: Value, path: string) returns (list: seq<string>)
    ensures !PathValue(file, path).ListValue? ==> list == []
    ensures PathValue(file, path).ListValue? ==>
              |list| == |PathValue(file, path).items| &&
              forall k :: 0 <= k < |list| ==> list[k] == Stringify(PathValue(file, path).items[k])
  {
    var value := GetPathValue(file, path);
    if !value.ListValue? {
      return [];
    }
    list := [];
    var i := 0;
    while i < |value.items|
      invariant 0 <= i <= |value.items|
      invariant |list| == i
      invariant forall k :: 0 <= k < i ==> list[k] == Stringify(value.items[k])
    {
      list := list + [Stringify(value.items[i])];
      i := i + 1;
    }
  }

  /** Who a message or command comes from; a player has a UUID, whose
      `toString` is `uniqueId`. */
  datatype Subject = Player(uniqueId: string) | NonPlayer

  /** `getInternUUID(Object)`: the player's UUID without dashes, "none"
      for anything that is not a player. */
  function InternUuid(subject: Subject): (r: string)
    ensures subject.NonPlayer? ==> r == "none"
    ensures subject.Player? ==> '-' !in r && |r| <= |subject.uniqueId|
    ensures subject.Player? ==> forall c :: c != '-' ==> (c in r <==> c in subject.uniqueId)
  {
    match subject
    case NonPlayer => "none"
    case Player(id) => S.RemoveAll(id, '-')
  }

  /** `getInternUUID(String)`: null when no player of that name is online. */
  function InternUuidOf(online: S.Option<string>): (r: S.Option<string>)
    ensures r.Some? <==> online.Some?
    ensures r.Some? ==> r.value == InternUuid(Player(online.value))
  {
    match online
    case None => S.None
    case Some(id) => S.Some(S.RemoveAll(id, '-'))
  }

  predicate IsHexDigit(c: char) {
    '0' <= c <= '9' || 'a' <= c <= 'f'
  }

  predicate IsHexRun(s: string, n: nat) {
    |s| == n && forall k :: 0 <= k < |s| ==> IsHexDigit(s[k])
  }

  lemma {:induction false} RemoveAllAppend(a: string, b: string, c: char)
    ensures S.RemoveAll(a + b, c) == S.RemoveAll(a, c) + S.RemoveAll(b, c)
  {
    if a != [] {
      RemoveAllAppend(a[1..], b, c);
      assert (a + b)[1..] == a[1..] + b;
    } else {
      assert a + b == b;
    }
  }

  lemma {:induction false} RemoveAllAbsent(s: string, c: char)
    requires c !in s
    ensures S.RemoveAll(s, c) == s
  {
    if s != [] {
      RemoveAllAbsent(s[1..], c);
      assert [s[0]] + s[1..] == s;
    }
  }

  lemma RemoveDashThen(x: string, y: string)
    requires '-' !in y
    ensures S.RemoveAll(x + "-" + y, '-') == S.RemoveAll(x, '-') + y
  {
    var dash: string := "-";
    RemoveAllAppend(x, dash, '-');
    RemoveAllAppend(x + dash, y, '-');
    RemoveAllAbsent(y, '-');
  }

  lemma HexRunAppend(x: string, m: nat, y: string, n: nat)
    requires IsHexRun(x, m) && IsHexRun(y, n)
    ensures IsHexRun(x + y, m + n)
  {
    forall k | 0 <= k < |x + y|
      ensures IsHexDigit((x + y)[k])
    {
      if k < |x| {
        assert (x + y)[k] == x[k];
      } else {
        assert (x + y)[k] == y[k - |x|];
      }
    }
  }

  /** For a canonical UUID string (8-4-4-4-12 lower-case hex digits) the
      internal form is the 32 hex digits, in order. */
  lemma CanonicalInternUuid(a: string, b: string, c: string, d: string, e: string)
    requires IsHexRun(a, 8) && IsHexRun(b, 4) && IsHexRun(c, 4) && IsHexRun(d, 4) && IsHexRun(e, 12)
    ensures InternUuid(Player(a + "-" + b + "-" + c + "-" + d + "-" + e)) == a + b + c + d + e
    ensures IsHexRun(a + b + c + d + e, 32)
  {
    assert !IsHexDigit('-');
    assert '-' !in a && '-' !in b && '-' !in c && '-' !in d && '-' !in e;
    RemoveAllAbsent(a, '-');
    RemoveDashThen(a, b);
    RemoveDashThen(a + "-" + b, c);
    RemoveDashThen(a + "-" + b + "-" + c, d);
    RemoveDashThen(a + "-" + b + "-" + c + "-" + d, e);
    HexRunAppend(a, 8, b, 4);
    HexRunAppend(a + b, 12, c, 4);
    HexRunAppend(a + b + c, 16, d, 4);
    HexRunAppend(a + b + c + d, 20, e, 12);
  }
}
