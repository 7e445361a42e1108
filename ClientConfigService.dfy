/** tcp-client ClientConfigService: typed settings looked up along dotted paths in the
    parsed client configuration, each with a built-in fallback. */
module ClientConfigService {
  import opened Wrappers
  import opened Bytes
  import opened JavaText
  import opened ConfigJson

  /** The dotted key of each setting, written as its path joined by '.'. */
  const HOST_PATH: seq<string> := ["tcp", "client", "server", "host"]
  const PORT_PATH: seq<string> := ["tcp", "client", "server", "port"]
  const TIMEOUT_PATH: seq<string> := ["tcp", "client", "connect", "timeout"]
  const DIRECTORY_PATH: seq<string> := ["tcp", "client", "download", "directory"]
  const NODE_ID_PATH: seq<string> := ["tcp", "client", "sender", "nodeId"]

  const HOST_KEY := Join(HOST_PATH, '.')            // tcp.client.server.host
  const PORT_KEY := Join(PORT_PATH, '.')            // tcp.client.server.port
  const TIMEOUT_KEY := Join(TIMEOUT_PATH, '.')      // tcp.client.connect.timeout
  const DIRECTORY_KEY := Join(DIRECTORY_PATH, '.')  // tcp.client.download.directory
  const NODE_ID_KEY := Join(NODE_ID_PATH, '.')      // tcp.client.sender.nodeId

  const DEFAULT_HOST := "localhost"
  const DEFAULT_PORT: Int32 := 8888
  const DEFAULT_TIMEOUT: Int32 := 5000
  const DEFAULT_DIRECTORY := "downloads"
  const DEFAULT_NODE_ID := "CLIENT"

  /** The configuration loadDefaultConfig installs. */
  function DefaultConfig(): map<string, Json> {
    map["tcp" := JMap(map["client" := JMap(map[
      "server" := JMap(map["host" := JStr(DEFAULT_HOST), "port" := JNum(DEFAULT_PORT)]),
      "connect" := JMap(map["timeout" := JNum(DEFAULT_TIMEOUT)]),
      "download" := JMap(map["directory" := JStr(DEFAULT_DIRECTORY)]),
      "sender" := JMap(map["nodeId" := JStr(DEFAULT_NODE_ID)])])])]
  }

  /** getNestedValue(key, default): the value at the end of the path, or the default when
      the walk leaves the maps or ends on null. */
  function NestedValue(cache: map<string, Json>, key: string, default: Json): Json {
    match Walk(Some(JMap(cache)), Split(key, '.'))
    case Some(v) => v
    case None => default
  }

  /** value.toString() for a string getter; a map value's toString (Java's AbstractMap
      text) is not modelled and yields None. */
  function StringSetting(v: Json): Option<string> {
    if v.JMap? then None else Some(LeafText(v))
  }

  /** `instanceof Number ? intValue() : fallback`; intValue keeps the low 32 bits. */
  function NumberSetting(v: Json, fallback: Int32): Int32 {
    if v.JNum? then ToInt32(v.n) else fallback
  }

  function TcpServerHost(cache: map<string, Json>): Option<string> {
    StringSetting(NestedValue(cache, HOST_KEY, JStr(DEFAULT_HOST)))
  }

  function TcpServerPort(cache: map<string, Json>): Int32 {
    NumberSetting(NestedValue(cache, PORT_KEY, JNum(DEFAULT_PORT)), DEFAULT_PORT)
  }

  function ConnectTimeout(cache: map<string, Json>): Int32 {
    NumberSetting(NestedValue(cache, TIMEOUT_KEY, JNum(DEFAULT_TIMEOUT)), DEFAULT_TIMEOUT)
  }

  function DownloadDirectory(cache: map<string, Json>): Option<string> {
    StringSetting(NestedValue(cache, DIRECTORY_KEY, JStr(DEFAULT_DIRECTORY)))
  }

  function SenderNodeId(cache: map<string, Json>): Option<string> {
    StringSetting(NestedValue(cache, NODE_ID_KEY, JStr(DEFAULT_NODE_ID)))
  }

  class ClientConfigService {
    var configCache: map<string, Json>

    constructor ()
      ensures configCache == map[]
    {
      configCache := map[];
    }

    /** loadConfig with the file's parsed content as a parameter. None stands for a missing
        file, a read or parse failure, or a document that is just `null` (putAll(null)
        throws). A top-level null value makes putAll throw as well. Every such failure is
        caught and installs the default config; otherwise the cache becomes the file. */
    method LoadConfig(parsed: Option<TopLevel>)
      modifies this`configCache
      ensures parsed.Some? && !HasNull(parsed.value) ==> configCache == NonNull(parsed.value)
      ensures parsed.None? || HasNull(parsed.value) ==> configCache == DefaultConfig()
    {
      if parsed.Some? && !HasNull(parsed.value) {
        configCache := NonNull(parsed.value);
      } else {
        LoadDefaultConfig();
      }
    }

    method LoadDefaultConfig()
      modifies this`configCache
      ensures configCache == DefaultConfig()
    {
      var server := map["host" := JStr(DEFAULT_HOST), "port" := JNum(DEFAULT_PORT)];
      var tcpClient := map["server" := JMap(server)];
      var connect := map["timeout" := JNum(DEFAULT_TIMEOUT)];
      tcpClient := tcpClient["connect" := JMap(connect)];
      var download := map["directory" := JStr(DEFAULT_DIRECTORY)];
      tcpClient := tcpClient["download" := JMap(download)];
      var sender := map["nodeId" := JStr(DEFAULT_NODE_ID)];
      tcpClient := tcpClient["sender" := JMap(sender)];
      configCache := map["tcp" := JMap(map["client" := JMap(tcpClient)])];
    }

    method GetNestedValue(key: string, default: Json) returns (r: Json)
      ensures r == NestedValue(configCache, key, default)
    {
      var keys := Split(key, '.');
      var current: Option<Json> := Some(JMap(configCache));
      var i := 0;
      while i < |keys|
        invariant 0 <= i <= |keys|
        invariant Walk(current, keys[i..]) == Walk(Some(JMap(configCache)), keys)
      {
        if current.Some? && current.value.JMap? {
          var m := current.value.entries;
          current := if keys[i] in m then Some(m[keys[i]]) else None;
        } else {
          WalkStopsAtLeaf(current, keys[i..]);
          return default;
        }
        i := i + 1;
      }
      if current.Some? {
        return current.value;
      }
      return default;
    }

    method GetTcpServerHost() returns (r: Option<string>)
      ensures r == TcpServerHost(configCache)
    {
      var value := GetNestedValue(HOST_KEY, JStr(DEFAULT_HOST));
      r := StringSetting(value);
    }

    method GetTcpServerPort() returns (r: Int32)
      ensures r == TcpServerPort(configCache)
    {
      var port := GetNestedValue(PORT_KEY, JNum(DEFAULT_PORT));
      if port.JNum? {
        return ToInt32(port.n);
      }
      return DEFAULT_PORT;
    }

    method GetConnectTimeout() returns (r: Int32)
      ensures r == ConnectTimeout(configCache)
    {
      var timeout := GetNestedValue(TIMEOUT_KEY, JNum(DEFAULT_TIMEOUT));
      if timeout.JNum? {
        return ToInt32(timeout.n);
      }
      return DEFAULT_TIMEOUT;
    }

    method GetDownloadDirectory() returns (r: Option<string>)
      ensures r == DownloadDirectory(configCache)
    {
      var value := GetNestedValue(DIRECTORY_KEY, JStr(DEFAULT_DIRECTORY));
      r := StringSetting(value);
    }

    method GetSenderNodeId() returns (r: Option<string>)
      ensures r == SenderNodeId(configCache)
    {
      var value := GetNestedValue(NODE_ID_KEY, JStr(DEFAULT_NODE_ID));
      r := StringSetting(value);
    }
  }

  /** A dotted key splits back into its path, since no level holds a '.' and the last
      level is not empty. */
  lemma KeyPath(path: seq<string>)
    requires |path| == 4 && '.' !in path[0] && '.' !in path[1] && '.' !in path[2] && '.' !in path[3] && path[3] != ""
    ensures Split(Join(path, '.'), '.') == path
  {
    assert NoneContains(path, '.');
    SplitJoin(path, '.');
  }

  /** Every setting's dotted key splits back into its path, so each getter's lookup is a
      walk along that path. */
  lemma SettingKeys()
    ensures Split(HOST_KEY, '.') == HOST_PATH
    ensures Split(PORT_KEY, '.') == PORT_PATH
    ensures Split(TIMEOUT_KEY, '.') == TIMEOUT_PATH
    ensures Split(DIRECTORY_KEY, '.') == DIRECTORY_PATH
    ensures Split(NODE_ID_KEY, '.') == NODE_ID_PATH
  {
    assert Split(HOST_KEY, '.') == HOST_PATH by { KeyPath(HOST_PATH); }
    assert Split(PORT_KEY, '.') == PORT_PATH by { KeyPath(PORT_PATH); }
    assert Split(TIMEOUT_KEY, '.') == TIMEOUT_PATH by { KeyPath(TIMEOUT_PATH); }
    assert Split(DIRECTORY_KEY, '.') == DIRECTORY_PATH by { KeyPath(DIRECTORY_PATH); }
    assert Split(NODE_ID_KEY, '.') == NODE_ID_PATH by { KeyPath(NODE_ID_PATH); }
  }

  /** A four-level walk is four descents. */
  lemma Walk4(cache: map<string, Json>, k: seq<string>)
    requires |k| == 4
    ensures Walk(Some(JMap(cache)), k) == Descend(Descend(Descend(Descend(Some(JMap(cache)), k[0]), k[1]), k[2]), k[3])
  {
    var d1 := Descend(Some(JMap(cache)), k[0]);
    var d2 := Descend(d1, k[1]);
    var d3 := Descend(d2, k[2]);
    var k1 := k[1..];
    var k2 := k1[1..];
    var k3 := k2[1..];
    assert k1[0] == k[1] && k2[0] == k[2] && k3[0] == k[3] && |k3[1..]| == 0;
    assert Walk(Some(JMap(cache)), k) == Walk(d1, k1);
    assert Walk(d1, k1) == Walk(d2, k2);
    assert Walk(d2, k2) == Walk(d3, k3);
    assert Walk(d3, k3) == Walk(Descend(d3, k[3]), k3[1..]);
  }

  /** getNestedValue returns a value it reaches unchanged, returns the default when it
      meets a non-map (or a missing key) before the path is exhausted, and returns the
      default when the path ends on null. */
  lemma NestedValueCases(cache: map<string, Json>, key: string, default: Json, i: nat)
    ensures var keys := Split(key, '.');
      && (Walk(Some(JMap(cache)), keys).Some? ==> NestedValue(cache, key, default) == Walk(Some(JMap(cache)), keys).value)
      && (Walk(Some(JMap(cache)), keys).None? ==> NestedValue(cache, key, default) == default)
      && (i < |keys| && (Walk(Some(JMap(cache)), keys[..i]).None? || !Walk(Some(JMap(cache)), keys[..i]).value.JMap?) ==>
            NestedValue(cache, key, default) == default)
  {
    var keys := Split(key, '.');
    if i < |keys| {
      assert keys == keys[..i] + keys[i..];
      WalkCompose(Some(JMap(cache)), keys[..i], keys[i..]);
      var mid := Walk(Some(JMap(cache)), keys[..i]);
      if mid.None? || !mid.value.JMap? {
        WalkStopsAtLeaf(mid, keys[i..]);
      }
    }
  }

  /** The sections of the default configuration, one level at a time. */
  lemma DefaultConfigLookups()
    ensures var c := DefaultConfig();
      && "tcp" in c && c["tcp"].JMap? && "client" in c["tcp"].entries && c["tcp"].entries["client"].JMap?
      && var cl := c["tcp"].entries["client"].entries;
      && cl.Keys == {"server", "connect", "download", "sender"}
      && cl["server"].entries == map["host" := JStr(DEFAULT_HOST), "port" := JNum(DEFAULT_PORT)]
      && cl["connect"].entries == map["timeout" := JNum(DEFAULT_TIMEOUT)]
      && cl["download"].entries == map["directory" := JStr(DEFAULT_DIRECTORY)]
      && cl["sender"].entries == map["nodeId" := JStr(DEFAULT_NODE_ID)]
  {
  }

  /** Every setting path leads to its leaf in the default configuration. */
  lemma DefaultConfigWalks()
    ensures Walk(Some(JMap(DefaultConfig())), HOST_PATH) == Some(JStr(DEFAULT_HOST))
    ensures Walk(Some(JMap(DefaultConfig())), PORT_PATH) == Some(JNum(DEFAULT_PORT))
    ensures Walk(Some(JMap(DefaultConfig())), TIMEOUT_PATH) == Some(JNum(DEFAULT_TIMEOUT))
    ensures Walk(Some(JMap(DefaultConfig())), DIRECTORY_PATH) == Some(JStr(DEFAULT_DIRECTORY))
    ensures Walk(Some(JMap(DefaultConfig())), NODE_ID_PATH) == Some(JStr(DEFAULT_NODE_ID))
  {
    DefaultConfigLookups();
    assert Walk(Some(JMap(DefaultConfig())), HOST_PATH) == Some(JStr(DEFAULT_HOST)) by {
      Walk4(DefaultConfig(), HOST_PATH);
    }
    assert Walk(Some(JMap(DefaultConfig())), PORT_PATH) == Some(JNum(DEFAULT_PORT)) by {
      Walk4(DefaultConfig(), PORT_PATH);
    }
    assert Walk(Some(JMap(DefaultConfig())), TIMEOUT_PATH) == Some(JNum(DEFAULT_TIMEOUT)) by {
      Walk4(DefaultConfig(), TIMEOUT_PATH);
    }
    assert Walk(Some(JMap(DefaultConfig())), DIRECTORY_PATH) == Some(JStr(DEFAULT_DIRECTORY)) by {
      Walk4(DefaultConfig(), DIRECTORY_PATH);
    }
    assert Walk(Some(JMap(DefaultConfig())), NODE_ID_PATH) == Some(JStr(DEFAULT_NODE_ID)) by {
      Walk4(DefaultConfig(), NODE_ID_PATH);
    }
  }

  /** The default configuration yields the built-in settings. */
  lemma DefaultConfigSettings()
    ensures TcpServerHost(DefaultConfig()) == Some("localhost")
    ensures TcpServerPort(DefaultConfig()) == 8888
    ensures ConnectTimeout(DefaultConfig()) == 5000
    ensures DownloadDirectory(DefaultConfig()) == Some("downloads")
    ensures SenderNodeId(DefaultConfig()) == Some("CLIENT")
  {
    DefaultConfigWalks();
    SettingKeys();
  }

  /** Port and timeout: a number is taken (as its low 32 bits, so unchanged when it fits
      an int), and anything else falls back. */
  lemma NumberSettingCases(v: Json, fallback: Int32)
    ensures v.JNum? && INT32_MIN <= v.n <= INT32_MAX ==> NumberSetting(v, fallback) == v.n
    ensures v.JNum? ==> (NumberSetting(v, fallback) - v.n) % 0x1_0000_0000 == 0
    ensures !v.JNum? ==> NumberSetting(v, fallback) == fallback
  {
  }

  /** With nothing configured under "tcp" (an empty configuration in particular) every
      getter gives its built-in fallback. */
  lemma EmptyConfigSettings(cache: map<string, Json>)
    requires "tcp" !in cache
    ensures TcpServerHost(cache) == Some(DEFAULT_HOST)
    ensures TcpServerPort(cache) == DEFAULT_PORT
    ensures ConnectTimeout(cache) == DEFAULT_TIMEOUT
    ensures DownloadDirectory(cache) == Some(DEFAULT_DIRECTORY)
    ensures SenderNodeId(cache) == Some(DEFAULT_NODE_ID)
  {
    SettingKeys();
    Walk4(cache, HOST_PATH);
    Walk4(cache, PORT_PATH);
    Walk4(cache, TIMEOUT_PATH);
    Walk4(cache, DIRECTORY_PATH);
    Walk4(cache, NODE_ID_PATH);
  }
}
