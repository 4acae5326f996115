/** `getServerConfig`: the server's environment name, host, port and the base
    URL it advertises. The three environment variables are parameters; `None`
    stands for an unset variable, which JavaScript reads as `undefined`. */
module ServerConfig {
  import opened Wrappers
  import opened JsNumber
  import opened JsText

  datatype Config = Config(nodeEnv: Option<string>, host: Option<string>, port: Number, baseUrl: string)

  /** `${v}` for an environment variable: an unset one prints as "undefined". */
  function EnvText(v: Option<string>): string {
    match v
    case Some(s) => s
    case None => "undefined"
  }

  /** The host written into a non-production base URL: the wildcard address
      0.0.0.0 is replaced by localhost. */
  function DevHost(host: Option<string>): string {
    if host == Some("0.0.0.0") then "localhost" else EnvText(host)
  }

  /** The base URL advertised for a port: https and the host verbatim in
      production, http and `DevHost` otherwise. */
  function BaseUrl(nodeEnv: Option<string>, host: Option<string>, port: Number): string {
    if nodeEnv == Some("production") then "https://" + EnvText(host) + ":" + NumberToString(port)
    else "http://" + DevHost(host) + ":" + NumberToString(port)
  }

  /** The returned `nodeEnv` and `host` are the variables as read, `port` is
      `parseInt(BACKEND_PORT)` and the base URL is built from that port; the
      lemmas below say what the base URL is. */
  function GetServerConfig(nodeEnv: Option<string>, host: Option<string>, backendPort: Option<string>): (c: Config)
    ensures c.nodeEnv == nodeEnv && c.host == host
    ensures c.port == ParseInt(EnvText(backendPort))
    ensures c.baseUrl == BaseUrl(nodeEnv, host, c.port)
  {
    var port := ParseInt(EnvText(backendPort));
    Config(nodeEnv, host, port, BaseUrl(nodeEnv, host, port))
  }

  /** The base URL uses https exactly when NODE_ENV is "production". */
  lemma SecureSchemeIffProduction(nodeEnv: Option<string>, host: Option<string>, port: Number)
    ensures var url := BaseUrl(nodeEnv, host, port);
            (|url| >= 8 && url[..8] == "https://") <==> nodeEnv == Some("production")
  {
    var url := BaseUrl(nodeEnv, host, port);
    if nodeEnv != Some("production") {
      assert url[4] == ':';
    }
  }

  /** Only the URL of a non-production server mentions localhost for the
      wildcard address; production advertises the wildcard address verbatim
      (and `GetServerConfig` returns the host unchanged in both modes). */
  lemma WildcardHostRewrittenOnlyInUrl(nodeEnv: Option<string>, port: Number)
    ensures BaseUrl(nodeEnv, Some("0.0.0.0"), port)
            == (if nodeEnv == Some("production") then "https://0.0.0.0:" else "http://localhost:") + NumberToString(port)
  {
  }

  /** Apart from the scheme, the two modes advertise the same address,
      host verbatim, for any host other than the wildcard one. */
  lemma SameAddressInBothModes(nodeEnv: Option<string>, host: Option<string>, port: Number)
    requires nodeEnv != Some("production") && host != Some("0.0.0.0")
    ensures var address := EnvText(host) + ":" + NumberToString(port);
            && BaseUrl(Some("production"), host, port) == "https://" + address
            && BaseUrl(nodeEnv, host, port) == "http://" + address
  {
  }

  /** Whatever the mode, the base URL ends with a colon and the printed port. */
  lemma UrlEndsWithPort(nodeEnv: Option<string>, host: Option<string>, port: Number)
    ensures var url := BaseUrl(nodeEnv, host, port);
            var suffix := ":" + NumberToString(port);
            |url| > |suffix| && url[|url| - |suffix|..] == suffix
  {
    var head := if nodeEnv == Some("production") then "https://" + EnvText(host) else "http://" + DevHost(host);
    var suffix := ":" + NumberToString(port);
    assert BaseUrl(nodeEnv, host, port) == head + suffix;
    assert (head + suffix)[|head|..] == suffix;
  }

  /** A BACKEND_PORT that starts with a decimal numeral yields that number as
      the port, and the base URL ends with the same numeral. */
  lemma PortFromDecimalVariable(nodeEnv: Option<string>, host: Option<string>, port: nat, rest: string)
    requires rest != [] ==> !IsDigitOf(rest[0], 10)
    requires rest != [] && port == 0 ==> rest[0] != 'x' && rest[0] != 'X'
    ensures var c := GetServerConfig(nodeEnv, host, Some(NatToString(port) + rest));
            && c.port == Finite(port)
            && |c.baseUrl| > |NatToString(port)|
            && c.baseUrl[|c.baseUrl| - |NatToString(port)| - 1..] == ":" + NatToString(port)
  {
    ParseIntOfPrinted(port, rest);
    UrlEndsWithPort(nodeEnv, host, Finite(port));
  }

  /** An unset BACKEND_PORT gives NaN, which the base URL spells out. */
  lemma UnsetPortIsNaN(nodeEnv: Option<string>, host: Option<string>)
    ensures var c := GetServerConfig(nodeEnv, host, None);
            c.port == NaN && c.baseUrl[|c.baseUrl| - 4..] == ":NaN"
  {
    UnsetPortParsesToNaN(None);
    NaNSuffix();
    ConfigEndsWithPort(nodeEnv, host, None, NaN, ":NaN");
  }

  lemma NaNSuffix()
    ensures ":" + NumberToString(NaN) == ":NaN"
  {
  }

  lemma UnsetPortParsesToNaN(backendPort: Option<string>)
    requires backendPort.None?
    ensures ParseInt(EnvText(backendPort)) == NaN
  {
    var t := EnvText(backendPort);
    assert !IsJsWhitespace(t[0]);
    assert TrimStart(t) == t;
    assert DigitPrefix(t, 10) == [];
  }

  lemma ConfigEndsWithPort(nodeEnv: Option<string>, host: Option<string>, backendPort: Option<string>,
                            port: Number, suffix: string)
    requires ParseInt(EnvText(backendPort)) == port && suffix == ":" + NumberToString(port)
    ensures var c := GetServerConfig(nodeEnv, host, backendPort);
            c.port == port && |c.baseUrl| > |suffix| && c.baseUrl[|c.baseUrl| - |suffix|..] == suffix
  {
    var c := GetServerConfig(nodeEnv, host, backendPort);
    assert c.port == port && c.baseUrl == BaseUrl(nodeEnv, host, port);
    UrlEndsWithPort(nodeEnv, host, port);
  }

}
