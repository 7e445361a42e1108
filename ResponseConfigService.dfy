/** tcp-server ResponseConfigService: the response texts the protocol handler sends, taken
    from a configured template when one exists under the generator's key, with
    "{timestamp}" filled in, and otherwise a built-in default. The current time is a
    parameter (`now`, its ISO local date-time text). */
module ResponseConfigService {
  import opened Wrappers
  import opened Bytes
  import opened JavaText
  import opened ConfigJson

  /** Each generator's dotted key, written as its path joined by '.'. */
  const SIGNIN_SUCCESS_PATH: seq<string> := ["signin", "success", "template"]
  const SIGNIN_FAILED_PATH: seq<string> := ["signin", "failed", "template"]
  const QUERY_SUCCESS_PATH: seq<string> := ["business", "query", "success", "template"]
  const UPDATE_SUCCESS_PATH: seq<string> := ["business", "update", "success", "template"]
  const DELETE_SUCCESS_PATH: seq<string> := ["business", "delete", "success", "template"]
  const UNKNOWN_CODE_PATH: seq<string> := ["business", "unknown", "template"]
  const UNKNOWN_TYPE_PATH: seq<string> := ["error", "unknown_transaction_type", "template"]

  const SIGNIN_SUCCESS_KEY := Join(SIGNIN_SUCCESS_PATH, '.')  // signin.success.template
  const SIGNIN_FAILED_KEY := Join(SIGNIN_FAILED_PATH, '.')    // signin.failed.template
  const QUERY_SUCCESS_KEY := Join(QUERY_SUCCESS_PATH, '.')    // business.query.success.template
  const UPDATE_SUCCESS_KEY := Join(UPDATE_SUCCESS_PATH, '.')  // business.update.success.template
  const DELETE_SUCCESS_KEY := Join(DELETE_SUCCESS_PATH, '.')  // business.delete.success.template
  const UNKNOWN_CODE_KEY := Join(UNKNOWN_CODE_PATH, '.')      // business.unknown.template
  const UNKNOWN_TYPE_KEY := Join(UNKNOWN_TYPE_PATH, '.')      // error.unknown_transaction_type.template

  /** What getNestedValue yields: a text, null, or a ClassCastException (a "template" entry
      that is not a string). */
  datatype Lookup = Found(text: string) | NotFound | CastFailure

  /** getNestedValue: walk the dotted key; a map reached at the end gives its "template"
      entry, any other value its text. */
  function NestedValue(cache: map<string, Json>, key: string): Lookup {
    match Walk(Some(JMap(cache)), Split(key, '.'))
    case None => NotFound
    case Some(v) =>
      if v.JMap? then
        if "template" !in v.entries then NotFound
        else if v.entries["template"].JStr? then Found(v.entries["template"].s)
        else CastFailure
      else Found(LeafText(v))
  }

  /** formatTemplate: null gives ""; otherwise each variable's "{name}" is replaced in turn,
      in the order of the entries. */
  function Formatted(template: Option<string>, variables: seq<(string, string)>): string {
    if template.None? then "" else FormatWith(template.value, variables)
  }

  function FormatWith(s: string, variables: seq<(string, string)>): string
    decreases |variables|
  {
    if |variables| == 0 then s
    else FormatWith(Replace(s, "{" + variables[0].0 + "}", variables[0].1), variables[1..])
  }

  /** getResponseTemplate: the formatted template when the lookup finds one, otherwise (null
      or an exception) the default. */
  function ResponseText(cache: map<string, Json>, key: string, defaultValue: string, now: string): string {
    var looked := NestedValue(cache, key);
    if looked.Found? then FormatWith(looked.text, [("timestamp", now)]) else defaultValue
  }

  function SigninSuccessDefault(now: string): string {
    "Sign in successful at " + now
  }

  function SigninFailedDefault(reason: Option<string>): string {
    "Sign in failed: " + (if reason.Some? then reason.value else "Unknown error")
  }

  function QueryDefault(data: Option<string>, now: string): string {
    "Query result: " + (if data.Some? then data.value else "") + " - processed at " + now
  }

  function UpdateDefault(data: Option<string>, now: string): string {
    "Update result: " + (if data.Some? then data.value else "") + " - updated at " + now
  }

  function DeleteDefault(data: Option<string>, now: string): string {
    "Delete result: " + (if data.Some? then data.value else "") + " - deleted at " + now
  }

  function UnknownCodeDefault(code: Option<string>): string {
    "Unknown transaction code: " + (if code.Some? then code.value else "UNKNOWN")
  }

  /** The type octet is a Java byte, so it prints signed. */
  function UnknownTypeDefault(transactionType: Byte): string {
    "Unknown transaction type: " + LongToString(SignedByte(transactionType))
  }

  /** The status getters. */
  function SigninSuccessStatus(): Byte { 0 }
  function SigninFailedStatus(): Byte { 1 }
  function BusinessSuccessStatus(): Byte { 0 }
  function BusinessFailedStatus(): Byte { 1 }

  class ResponseConfigService {
    var configCache: map<string, Json>

    /** A service with no configuration file reachable falls back to the default config. */
    constructor ()
      ensures configCache == map[]
    {
      configCache := map[];
    }

    /** loadConfig with the file's parsed content as a parameter. None stands for a missing
        file, a read or parse failure, or a document that is just `null` (putAll(null)
        throws). A top-level null value makes putAll throw as well. Every such failure is
        caught and installs the default config; otherwise the cache becomes the file. */
    method LoadConfig(parsed: Option<TopLevel>)
      modifies this`configCache
      ensures parsed.Some? && !HasNull(parsed.value) ==> configCache == NonNull(parsed.value)
      ensures parsed.None? || HasNull(parsed.value) ==> configCache == map[]
    {
      if parsed.Some? && !HasNull(parsed.value) {
        configCache := NonNull(parsed.value);
      } else {
        LoadDefaultConfig();
      }
    }

    /** loadDefaultConfig: the cache is emptied and nothing is put back. */
    method LoadDefaultConfig()
      modifies this`configCache
      ensures configCache == map[]
    {
      configCache := map[];
    }

    method GetNestedValue(key: string) returns (r: Lookup)
      ensures r == NestedValue(configCache, key)
    {
      var keys := Split(key, '.');
      var current: Option<Json> := Some(JMap(configCache));
      var i := 0;
      while i < |keys|
        invariant 0 <= i <= |keys|
        invariant Walk(current, keys[i..]) == Walk(Some(JMap(configCache)), keys)
      {
        if current.Some? && current.value.JMap? {
          var m := current.value.entries;
          current := if keys[i] in m then Some(m[keys[i]]) else None;
        } else {
          WalkStopsAtLeaf(current, keys[i..]);
          return NotFound;
        }
        i := i + 1;
      }
      if current.Some? && current.value.JMap? {
        var m := current.value.entries;
        if "template" !in m {
          return NotFound;
        }
        if m["template"].JStr? {
          return Found(m["template"].s);
        }
        return CastFailure;
      }
      if current.Some? {
        return Found(LeafText(current.value));
      }
      return NotFound;
    }

    method FormatTemplate(template: Option<string>, variables: seq<(string, string)>) returns (r: string)
      ensures r == Formatted(template, variables)
    {
      if template.None? {
        return "";
      }
      var result := template.value;
      var i := 0;
      while i < |variables|
        invariant 0 <= i <= |variables|
        invariant FormatWith(result, variables[i..]) == FormatWith(template.value, variables)
      {
        result := Replace(result, "{" + variables[i].0 + "}", variables[i].1);
        i := i + 1;
      }
      r := result;
    }

    method GetResponseTemplate(key: string, defaultValue: string, now: string) returns (r: string)
      ensures r == ResponseText(configCache, key, defaultValue, now)
    {
      var template := GetNestedValue(key);
      if template.Found? {
        r := FormatTemplate(Some(template.text), [("timestamp", now)]);
        return;
      }
      r := defaultValue;
    }

    method GenerateSigninSuccessResponse(now: string) returns (r: string)
      ensures r == ResponseText(configCache, SIGNIN_SUCCESS_KEY, SigninSuccessDefault(now), now)
    {
      r := GetResponseTemplate(SIGNIN_SUCCESS_KEY, SigninSuccessDefault(now), now);
    }

    method GenerateSigninFailedResponse(reason: Option<string>, now: string) returns (r: string)
      ensures r == ResponseText(configCache, SIGNIN_FAILED_KEY, SigninFailedDefault(reason), now)
    {
      r := GetResponseTemplate(SIGNIN_FAILED_KEY, SigninFailedDefault(reason), now);
    }

    method GenerateQuerySuccessResponse(data: Option<string>, now: string) returns (r: string)
      ensures r == ResponseText(configCache, QUERY_SUCCESS_KEY, QueryDefault(data, now), now)
    {
      r := GetResponseTemplate(QUERY_SUCCESS_KEY, QueryDefault(data, now), now);
    }

    method GenerateUpdateSuccessResponse(data: Option<string>, now: string) returns (r: string)
      ensures r == ResponseText(configCache, UPDATE_SUCCESS_KEY, UpdateDefault(data, now), now)
    {
      r := GetResponseTemplate(UPDATE_SUCCESS_KEY, UpdateDefault(data, now), now);
    }

    method GenerateDeleteSuccessResponse(data: Option<string>, now: string) returns (r: string)
      ensures r == ResponseText(configCache, DELETE_SUCCESS_KEY, DeleteDefault(data, now), now)
    {
      r := GetResponseTemplate(DELETE_SUCCESS_KEY, DeleteDefault(data, now), now);
    }

    method GenerateUnknownTransactionCodeResponse(code: Option<string>, now: string) returns (r: string)
      ensures r == ResponseText(configCache, UNKNOWN_CODE_KEY, UnknownCodeDefault(code), now)
    {
      r := GetResponseTemplate(UNKNOWN_CODE_KEY, UnknownCodeDefault(code), now);
    }

    method GenerateUnknownTransactionTypeResponse(transactionType: Byte, now: string) returns (r: string)
      ensures r == ResponseText(configCache, UNKNOWN_TYPE_KEY, UnknownTypeDefault(transactionType), now)
    {
      r := GetResponseTemplate(UNKNOWN_TYPE_KEY, UnknownTypeDefault(transactionType), now);
    }
  }

  /** With the default (empty) configuration every generator answers its default text. */
  lemma EmptyConfigUsesDefault(key: string, defaultValue: string, now: string)
    ensures ResponseText(map[], key, defaultValue, now) == defaultValue
  {
    var keys := Split(key, '.');
    if |keys| > 0 {
      WalkEmpty(keys);
    }
  }

  /** A lookup that meets a leaf or a missing key before the path ends gives null, so the
      default is used. */
  lemma ShortPathUsesDefault(cache: map<string, Json>, key: string, defaultValue: string, now: string, k: nat)
    requires k < |Split(key, '.')|
    requires var v := Walk(Some(JMap(cache)), Split(key, '.')[..k]); v.None? || !v.value.JMap?
    ensures NestedValue(cache, key) == NotFound
    ensures ResponseText(cache, key, defaultValue, now) == defaultValue
  {
    var keys := Split(key, '.');
    assert keys == keys[..k] + keys[k..];
    WalkCompose(Some(JMap(cache)), keys[..k], keys[k..]);
    WalkStopsAtLeaf(Walk(Some(JMap(cache)), keys[..k]), keys[k..]);
  }

  /** A configuration holding a map with a string "template" at the key's path answers that
      template with "{timestamp}" filled in; a non-string "template" falls back to the
      default. */
  lemma ConfiguredTemplateUsed(path: seq<string>, key: string, template: Json, defaultValue: string, now: string)
    requires |path| > 0 && Split(key, '.') == path
    ensures var cache := Nest(path, JMap(map["template" := template])).entries;
      && (template.JStr? ==> ResponseText(cache, key, defaultValue, now) == FormatWith(template.s, [("timestamp", now)]))
      && (!template.JStr? ==> NestedValue(cache, key) == CastFailure && ResponseText(cache, key, defaultValue, now) == defaultValue)
  {
    WalkNest(path, JMap(map["template" := template]));
  }

  /** The signin key splits into its three levels. */
  lemma SigninKeyPath()
    ensures Split(SIGNIN_SUCCESS_KEY, '.') == SIGNIN_SUCCESS_PATH
  {
    var parts := SIGNIN_SUCCESS_PATH;
    assert '.' !in parts[0] && '.' !in parts[1] && '.' !in parts[2];
    assert NoneContains(parts, '.');
    SplitJoin(parts, '.');
  }

  /** formatTemplate(null) is empty, a template without "{timestamp}" comes back unchanged,
      and a single occurrence, with no '{' before it, is replaced by the time. */
  lemma FormatTemplateCases(template: string, a: string, b: string, now: string)
    ensures Formatted(None, [("timestamp", now)]) == ""
    ensures !Contains(template, "{timestamp}") ==> Formatted(Some(template), [("timestamp", now)]) == template
    ensures '{' !in a && !Contains(b, "{timestamp}") ==>
      Formatted(Some(a + "{timestamp}" + b), [("timestamp", now)]) == a + now + b
  {
    var target := "{timestamp}";
    FormatTimestamp(template, now);
    FormatTimestamp(a + target + b, now);
    if !Contains(template, target) {
      ReplaceAbsent(template, target, now);
    }
    if '{' !in a && !Contains(b, target) {
      var s := a + target + b;
      forall i: nat | i < |a| ensures !OccursAt(s, target, i) {
        assert s[i] == a[i];
      }
      ReplaceFirst(a, target, b, now);
      ReplaceAbsent(b, target, now);
    }
  }

  /** With the single timestamp variable, formatting is one replacement. */
  lemma FormatTimestamp(t: string, now: string)
    ensures FormatWith(t, [("timestamp", now)]) == Replace(t, "{timestamp}", now)
  {
    var vars := [("timestamp", now)];
    assert "{" + vars[0].0 + "}" == "{timestamp}";
    assert vars[1..] == [];
  }
}
