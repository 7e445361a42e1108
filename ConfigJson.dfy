/** Parsed YAML/JSON configuration as the config services see it: nested maps whose leaves
    are strings, integers or other values. Below the top level a JSON null is
    indistinguishable from a missing key, as `Map.get` returns null for both. */
module ConfigJson {
  import opened Wrappers
  import opened JavaText

  /** JOther stands for any other leaf (boolean, floating-point number, list), carried by
      its toString text. */
  datatype Json = JMap(entries: map<string, Json>) | JStr(s: string) | JNum(n: int) | JOther(text: string)

  /** Object.toString of a leaf. */
  function LeafText(v: Json): string
    requires !v.JMap?
  {
    match v
    case JStr(s) => s
    case JNum(n) => LongToString(n)
    case JOther(t) => t
  }

  /** The top level of a parsed configuration file, where a value may still be a JSON null
      (None); loadConfig copies it into a ConcurrentHashMap, which refuses null values. */
  type TopLevel = map<string, Option<Json>>

  /** Some top-level key of the file maps to a JSON null, so putAll throws. */
  predicate HasNull(t: TopLevel) {
    exists k | k in t :: t[k].None?
  }

  /** The entries putAll copies when no top-level value is null. */
  function NonNull(t: TopLevel): (m: map<string, Json>)
    requires !HasNull(t)
    ensures m.Keys == t.Keys
    ensures forall k | k in t :: t[k] == Some(m[k])
  {
    map k | k in t :: t[k].value
  }

  /** One step of the getNestedValue loop: `Map.get` on a map, null (None) for a missing
      key, and no value when the current one is not a map. */
  function Descend(current: Option<Json>, key: string): Option<Json> {
    match current
    case Some(JMap(m)) => if key in m then Some(m[key]) else None
    case _ => None
  }

  /** The getNestedValue loop: descend one map level per key; the walk yields null (None)
      as soon as it must descend into a value that is not a map, a missing key included. */
  function Walk(current: Option<Json>, keys: seq<string>): Option<Json>
    decreases |keys|
  {
    if |keys| == 0 then current else Walk(Descend(current, keys[0]), keys[1..])
  }

  /** A value reached through a chain of single-entry maps, one per key. */
  function Nest(keys: seq<string>, leaf: Json): Json
    decreases |keys|
  {
    if |keys| == 0 then leaf else JMap(map[keys[0] := Nest(keys[1..], leaf)])
  }

  /** Walking a path in two parts is walking the second part from where the first ends. */
  lemma {:induction false} WalkCompose(current: Option<Json>, a: seq<string>, b: seq<string>)
    ensures Walk(current, a + b) == Walk(Walk(current, a), b)
    decreases |a|
  {
    if |a| == 0 {
      assert a + b == b;
    } else {
      assert (a + b)[0] == a[0] && (a + b)[1..] == a[1..] + b;
      WalkCompose(Descend(current, a[0]), a[1..], b);
    }
  }

  /** Once the walk has failed, it stays failed. */
  lemma WalkFromNowhere(keys: seq<string>)
    ensures Walk(None, keys) == None
  {
  }

  /** A leaf, or a null, stops the walk for good when keys remain. */
  lemma WalkStopsAtLeaf(current: Option<Json>, keys: seq<string>)
    requires current.None? || !current.value.JMap?
    requires |keys| > 0
    ensures Walk(current, keys) == None
  {
  }

  /** Walking a nested chain along its own keys reaches its leaf. */
  lemma {:induction false} WalkNest(keys: seq<string>, leaf: Json)
    ensures Walk(Some(Nest(keys, leaf)), keys) == Some(leaf)
    decreases |keys|
  {
    if |keys| > 0 {
      WalkNest(keys[1..], leaf);
    }
  }

  /** An empty configuration has nothing under any non-empty path. */
  lemma WalkEmpty(keys: seq<string>)
    requires |keys| > 0
    ensures Walk(Some(JMap(map[])), keys) == None
  {
    WalkFromNowhere(keys[1..]);
  }
}
