/** Reading and updating one config section over the API: `config_section_get`, `config_section_put`
    and `api_put` of `crates/firmware-nostd/src/webapi.rs`. */
module ConfigApis {
  import opened Wrappers
  import opened JsonTrees
  import opened Configs
  import opened ConfigSecrets

  datatype Section =
    | WifiSection | MqttSection | HttpsSection | Switches | Sensors | FlowAlarm | Timezone | SntpServers | Schedule
    | WireguardSection | AdminToken | Webhooks

  function Parse(name: string): Option<Section> {
    match name
    case "wifi" => Some(WifiSection)
    case "mqtt" => Some(MqttSection)
    case "https" => Some(HttpsSection)
    case "switches" => Some(Switches)
    case "sensors" => Some(Sensors)
    case "flow_alarm" => Some(FlowAlarm)
    case "timezone" => Some(Timezone)
    case "sntp_servers" => Some(SntpServers)
    case "schedule" => Some(Schedule)
    case "wireguard" => Some(WireguardSection)
    case "admin_token" => Some(AdminToken)
    case "webhooks" => Some(Webhooks)
    case _ => None
  }

  // ---------------------------------------------------------------- sections as JSON

  function NetJson(n: Net): Json {
    Obj(map[Ssid := Str(n.ssid), Password := Str(n.password)])
  }

  function NetsJson(nets: seq<Net>): Json {
    Arr(seq(|nets|, i requires 0 <= i < |nets| => NetJson(nets[i])))
  }

  function WifiJson(w: Wifi): Json {
    Obj(map[Networks := NetsJson(w.networks), Hostname := Str(w.hostname), ApSsid := Str(w.apSsid),
            ApPassword := Str(w.apPassword)])
  }

  function MqttJson(m: Mqtt): Json {
    Obj(map[BrokerUrl := Str(m.brokerUrl), Username := Str(m.username), Password := Str(m.password),
            BaseTopic := Str(m.baseTopic), HaDiscoveryPrefix := Str(m.haDiscoveryPrefix), Enabled := Bool(m.enabled),
            CaCertPem := Str(m.caCertPem), ClientCertPem := Str(m.clientCertPem),
            ClientKeyPem := Str(m.clientKeyPem)])
  }

  function HttpsJson(h: Https): Json {
    Obj(map[Enabled := Bool(h.enabled), CertPem := Str(h.certPem), KeyPem := Str(h.keyPem)])
  }

  function StringsJson(ss: seq<string>): Json {
    Arr(seq(|ss|, i requires 0 <= i < |ss| => Str(ss[i])))
  }

  function WireguardJson(w: Wireguard): Json {
    Obj(map[Enabled := Bool(w.enabled), Address := Str(w.address), PrivateKey := Str(w.privateKey),
            PeerEndpoint := Str(w.peerEndpoint), PeerPublicKey := Str(w.peerPublicKey),
            PeerPresharedKey := Str(w.peerPresharedKey), PeerAllowedIps := StringsJson(w.peerAllowedIps),
            KeepaliveSecs := Num(w.keepaliveSecs)])
  }

  function SectionJson(c: Config, s: Section): Json {
    match s
    case WifiSection => WifiJson(c.wifi)
    case MqttSection => MqttJson(c.mqtt)
    case HttpsSection => HttpsJson(c.https)
    case Switches => c.switches
    case Sensors => c.sensors
    case FlowAlarm => c.flowAlarm
    case Timezone => c.timezone
    case SntpServers => c.sntpServers
    case Schedule => c.schedule
    case WireguardSection => WireguardJson(c.wireguard)
    case AdminToken => Str(c.adminToken)
    case Webhooks => c.webhooks
  }

  // ---------------------------------------------------------------- JSON as sections

  /** A field that must be a string; `absent` is what serde takes for a missing one. */
  function StrField(o: map<Key, Json>, k: Key, absent: Option<string>): Option<string> {
    if k !in o then absent else if o[k].Str? then Some(o[k].s) else None
  }

  function BoolField(o: map<Key, Json>, k: Key, absent: Option<bool>): Option<bool> {
    if k !in o then absent else if o[k].Bool? then Some(o[k].b) else None
  }

  function ReadNet(j: Json): Option<Net> {
    if !j.Obj? then None
    else
      match (StrField(j.fields, Ssid, None), StrField(j.fields, Password, None))
      case (Some(ssid), Some(password)) => Some(Net(ssid, password))
      case _ => None
  }

  function ReadNets(items: seq<Json>): Option<seq<Net>> {
    if items == [] then Some([])
    else
      match (ReadNet(items[0]), ReadNets(items[1..]))
      case (Some(n), Some(rest)) => Some([n] + rest)
      case _ => None
  }

  function ReadStrings(items: seq<Json>): Option<seq<string>> {
    if items == [] then Some([])
    else if !items[0].Str? then None
    else
      match ReadStrings(items[1..])
      case Some(rest) => Some([items[0].s] + rest)
      case None => None
  }

  function ReadWifi(j: Json): Option<Wifi> {
    if !j.Obj? || Networks !in j.fields || !j.fields[Networks].Arr? then None
    else
      var o := j.fields;
      match (ReadNets(o[Networks].items), StrField(o, Hostname, Some("doremorwater")),
             StrField(o, ApSsid, Some("Doremorwater Fallback Hotspot")), StrField(o, ApPassword, Some("")))
      case (Some(nets), Some(host), Some(apSsid), Some(apPassword)) => Some(Wifi(nets, host, apSsid, apPassword))
      case _ => None
  }

  function ReadMqtt(j: Json): Option<Mqtt> {
    if !j.Obj? then None
    else
      var o := j.fields;
      var (url, user, pass) :=
        (StrField(o, BrokerUrl, None), StrField(o, Username, None), StrField(o, Password, None));
      var (topic, prefix, on) :=
        (StrField(o, BaseTopic, None), StrField(o, HaDiscoveryPrefix, None), BoolField(o, Enabled, None));
      var (ca, cert, key) :=
        (StrField(o, CaCertPem, Some("")), StrField(o, ClientCertPem, Some("")), StrField(o, ClientKeyPem, Some("")));
      if url.None? || user.None? || pass.None? || topic.None? || prefix.None? || on.None? || ca.None? || cert.None? ||
         key.None? then None
      else Some(Mqtt(url.value, user.value, pass.value, topic.value, prefix.value, on.value, ca.value, cert.value,
                     key.value))
  }

  function ReadHttps(j: Json): Option<Https> {
    if !j.Obj? then None
    else
      match (BoolField(j.fields, Enabled, Some(true)), StrField(j.fields, CertPem, None),
             StrField(j.fields, KeyPem, None))
      case (Some(on), Some(cert), Some(key)) => Some(Https(on, cert, key))
      case _ => None
  }

  function ReadWireguard(j: Json): Option<Wireguard> {
    if !j.Obj? then None
    else
      var o := j.fields;
      var (on, address, key) :=
        (BoolField(o, Enabled, None), StrField(o, Address, None), StrField(o, PrivateKey, None));
      var (endpoint, pub, psk) :=
        (StrField(o, PeerEndpoint, None), StrField(o, PeerPublicKey, None), StrField(o, PeerPresharedKey, None));
      if on.None? || address.None? || key.None? || endpoint.None? || pub.None? || psk.None? ||
         PeerAllowedIps !in o || !o[PeerAllowedIps].Arr? || ReadStrings(o[PeerAllowedIps].items).None? ||
         KeepaliveSecs !in o || !o[KeepaliveSecs].Num? || !(0 <= o[KeepaliveSecs].n < 0x1_0000) then None
      else Some(Wireguard(on.value, address.value, key.value, endpoint.value, pub.value, psk.value,
                          ReadStrings(o[PeerAllowedIps].items).value, o[KeepaliveSecs].n))
  }

  /** How serde reads a section without secrets: the JSON it would be written back as, or nothing. */
  type PlainReader = (Section, Json) -> Option<Json>

  /** The config with one section read from `j`, every other one as it was. */
  function WithSection(c: Config, s: Section, j: Json, plain: PlainReader): Option<Config> {
    match s
    case WifiSection => (match ReadWifi(j) case Some(w) => Some(c.(wifi := w)) case None => None)
    case MqttSection => (match ReadMqtt(j) case Some(m) => Some(c.(mqtt := m)) case None => None)
    case HttpsSection => (match ReadHttps(j) case Some(h) => Some(c.(https := h)) case None => None)
    case WireguardSection => (match ReadWireguard(j) case Some(w) => Some(c.(wireguard := w)) case None => None)
    case AdminToken => if j.Str? then Some(c.(adminToken := j.s)) else None
    case _ =>
      match plain(s, j)
      case None => None
      case Some(p) =>
        Some(match s
             case Switches => c.(switches := p)
             case Sensors => c.(sensors := p)
             case FlowAlarm => c.(flowAlarm := p)
             case Timezone => c.(timezone := p)
             case SntpServers => c.(sntpServers := p)
             case Schedule => c.(schedule := p)
             case _ => c.(webhooks := p))
  }

  /** Reading back what was written, section by section. */
  ghost predicate ReadsBack(c: Config, plain: PlainReader) {
    && c.wireguard.keepaliveSecs < 0x1_0000
    && (forall s: Section :: Plain(s) ==> plain(s, SectionJson(c, s)) == Some(SectionJson(c, s)))
  }

  predicate Plain(s: Section) {
    !s.WifiSection? && !s.MqttSection? && !s.HttpsSection? && !s.WireguardSection? && !s.AdminToken?
  }

  lemma {:induction false} NetsReadBack(nets: seq<Net>)
    ensures ReadNets(NetsJson(nets).items) == Some(nets)
  {
    if nets != [] {
      var items := NetsJson(nets).items;
      NetsReadBack(nets[1..]);
      assert items[1..] == NetsJson(nets[1..]).items;
      assert ReadNet(items[0]) == Some(nets[0]);
      assert [nets[0]] + nets[1..] == nets;
    }
  }

  lemma {:induction false} StringsReadBack(ss: seq<string>)
    ensures ReadStrings(StringsJson(ss).items) == Some(ss)
  {
    if ss != [] {
      StringsReadBack(ss[1..]);
      assert StringsJson(ss).items[1..] == StringsJson(ss[1..]).items;
      assert [ss[0]] + ss[1..] == ss;
    }
  }

  lemma {:induction false} WifiReadsBack(w: Wifi)
    ensures ReadWifi(WifiJson(w)) == Some(w)
  {
    NetsReadBack(w.networks);
  }

  lemma {:induction false} MqttReadsBack(m: Mqtt)
    ensures ReadMqtt(MqttJson(m)) == Some(m)
  {
  }

  lemma {:induction false} HttpsReadsBack(h: Https)
    ensures ReadHttps(HttpsJson(h)) == Some(h)
  {
  }

  lemma {:induction false} WireguardReadsBack(w: Wireguard)
    requires w.keepaliveSecs < 0x1_0000
    ensures ReadWireguard(WireguardJson(w)) == Some(w)
  {
    StringsReadBack(w.peerAllowedIps);
  }

  /** serde's two directions agree on every section, on any config that could have been read. */
  lemma {:induction false} SectionReadsBack(c: Config, s: Section, plain: PlainReader)
    requires ReadsBack(c, plain)
    ensures WithSection(c, s, SectionJson(c, s), plain) == Some(c)
  {
    match s
    case WifiSection => WifiReadsBack(c.wifi);
    case MqttSection => MqttReadsBack(c.mqtt);
    case HttpsSection => HttpsReadsBack(c.https);
    case WireguardSection => WireguardReadsBack(c.wireguard);
    case AdminToken =>
    case _ => assert plain(s, SectionJson(c, s)) == Some(SectionJson(c, s));
  }

  // ---------------------------------------------------------------- GET and PUT

  function SectionGet(c: Config, s: Section): Json {
    SectionJson(Redacted(c), s)
  }

  /** The config a section update leads to, or nothing when the merged JSON is no valid config. */
  function SectionPut(c: Config, s: Section, body: Json, plain: PlainReader): Option<Config> {
    match WithSection(c, s, Merge(SectionJson(c, s), body), plain)
    case Some(d) => Some(Restored(d, c))
    case None => None
  }

  datatype Reply = Ok | BadJson | UnknownSection | InvalidConfig | SaveFailed

  /** The live configuration and the copy stored in NVS. */
  class ConfigApi {
    var live: Config
    var saved: Option<Config>

    constructor (live: Config, saved: Option<Config>)
      ensures this.live == live && this.saved == saved
    {
      this.live, this.saved := live, saved;
    }

    method GetSection(name: string) returns (r: Option<Json>)
      ensures r == match Parse(name) { case Some(s) => Some(SectionGet(live, s)) case None => None }
    {
      match Parse(name)
      case Some(s) =>
        var redacted := RedactSecretsForApi(live);
        r := Some(SectionJson(redacted, s));
      case None =>
        r := None;
    }

    /** `body` is the parsed request, `None` when it is not JSON; `nvsFails` says that the save fails,
        which leaves the stored copy as it was. */
    method PutSection(name: string, body: Option<Json>, plain: PlainReader, nvsFails: bool) returns (r: Reply)
      modifies this
      ensures r.BadJson? <==> body.None?
      ensures r.UnknownSection? <==> body.Some? && Parse(name).None?
      ensures body.Some? && Parse(name).Some? ==>
                var next := SectionPut(old(live), Parse(name).value, body.value, plain);
                r == if next.None? then InvalidConfig else if nvsFails then SaveFailed else Ok
      ensures r.Ok? ==>
                var next := SectionPut(old(live), Parse(name).value, body.value, plain);
                Some(live) == saved == next
      ensures r.Ok? ==>
                var sent := WithSection(old(live), Parse(name).value,
                                        Merge(SectionJson(old(live), Parse(name).value), body.value), plain);
                sent.Some? && Adopted(sent.value, old(live), live)
      ensures !r.Ok? ==> live == old(live) && saved == old(saved)
    {
      if body.None? {
        return BadJson;
      }
      var section := Parse(name);
      if section.None? {
        return UnknownSection;
      }
      var merged := MergeInto(SectionJson(live, section.value), body.value);
      var cfg := WithSection(live, section.value, merged, plain);
      if cfg.None? {
        return InvalidConfig;
      }
      var next := RestoreSecretsFrom(cfg.value, live);
      RestoringAdopts(cfg.value, live);
      if nvsFails {
        return SaveFailed;
      }
      saved := Some(next);
      live := next;
      r := Ok;
    }

    /** The whole-config update: `incoming` is `None` when the body is no config. */
    method PutConfig(incoming: Option<Config>, nvsFails: bool) returns (r: Reply)
      modifies this
      ensures r == if incoming.None? then InvalidConfig else if nvsFails then SaveFailed else Ok
      ensures r.Ok? ==> Some(live) == saved == Some(Restored(incoming.value, old(live)))
      ensures r.Ok? ==> Adopted(incoming.value, old(live), live)
      ensures r.Ok? && NothingBlank(incoming.value) ==> live == incoming.value
      ensures !r.Ok? ==> live == old(live) && saved == old(saved)
    {
      if incoming.None? {
        return InvalidConfig;
      }
      var next := RestoreSecretsFrom(incoming.value, live);
      RestoringAdopts(incoming.value, live);
      if NothingBlank(incoming.value) { TakenAsSent(incoming.value, live, next); }
      if nvsFails {
        return SaveFailed;
      }
      saved := Some(next);
      live := next;
      r := Ok;
    }
  }

  /** The sections by the names they are asked for. */
  lemma {:induction false} NamedSections()
    ensures Parse("wifi") == Some(WifiSection) && Parse("mqtt") == Some(MqttSection)
    ensures Parse("https") == Some(HttpsSection) && Parse("wireguard") == Some(WireguardSection)
    ensures Parse("admin_token") == Some(AdminToken) && Parse("switches") == Some(Switches)
    ensures Parse("sensors") == Some(Sensors) && Parse("flow_alarm") == Some(FlowAlarm)
    ensures Parse("timezone") == Some(Timezone) && Parse("sntp_servers") == Some(SntpServers)
    ensures Parse("schedule") == Some(Schedule) && Parse("webhooks") == Some(Webhooks)
  {
  }

  /** Sections without secrets are shown as they are, the token is not shown. */
  lemma {:induction false} SectionsShown(c: Config)
    ensures SectionGet(c, Switches) == c.switches && SectionGet(c, Sensors) == c.sensors
    ensures SectionGet(c, FlowAlarm) == c.flowAlarm && SectionGet(c, Timezone) == c.timezone
    ensures SectionGet(c, SntpServers) == c.sntpServers && SectionGet(c, Schedule) == c.schedule
    ensures SectionGet(c, Webhooks) == c.webhooks && SectionGet(c, AdminToken) == Str("")
  {
  }

  // ---------------------------------------------------------------- putting back what was read

  lemma {:induction false} MergeMqtt(m: Mqtt)
    ensures Merge(MqttJson(m), MqttJson(m.(password := "", clientKeyPem := ""))) == MqttJson(m)
  {
    var (t, o) := (MqttJson(m), MqttJson(m.(password := "", clientKeyPem := "")));
    assert Merge(t, o).fields == t.fields;
  }

  lemma {:induction false} MergeHttps(h: Https)
    ensures Merge(HttpsJson(h), HttpsJson(h.(keyPem := ""))) == HttpsJson(h)
  {
    var (t, o) := (HttpsJson(h), HttpsJson(h.(keyPem := "")));
    assert Merge(t, o).fields == t.fields;
  }

  lemma {:induction false} MergeWireguard(w: Wireguard)
    ensures Merge(WireguardJson(w), WireguardJson(w.(privateKey := "", peerPresharedKey := ""))) == WireguardJson(w)
  {
    var (t, o) := (WireguardJson(w), WireguardJson(w.(privateKey := "", peerPresharedKey := "")));
    assert Merge(t, o).fields == t.fields;
  }

  lemma {:induction false} MergeWifi(w: Wifi)
    ensures var blank := w.(networks := BlankNets(w.networks));
            Merge(WifiJson(w), WifiJson(blank)) == WifiJson(blank)
  {
    var blank := w.(networks := BlankNets(w.networks));
    var (t, o) := (WifiJson(w), WifiJson(blank));
    assert Merge(t, o).fields == o.fields;
  }

  /** What the merge makes of a section put back as it was read: the Wi-Fi networks come out blank, the
      token blank, everything else as stored. */
  lemma {:induction false} PutBackReads(c: Config, s: Section, plain: PlainReader)
    requires ReadsBack(c, plain)
    ensures WithSection(c, s, Merge(SectionJson(c, s), SectionGet(c, s)), plain) ==
            Some(match s
                 case WifiSection => c.(wifi := c.wifi.(networks := BlankNets(c.wifi.networks)))
                 case AdminToken => c.(adminToken := "")
                 case _ => c)
  {
    match s
    case WifiSection =>
      MergeWifi(c.wifi);
      WifiReadsBack(c.wifi.(networks := BlankNets(c.wifi.networks)));
    case AdminToken =>
    case MqttSection =>
      MergeMqtt(c.mqtt);
      SectionReadsBack(c, s, plain);
    case HttpsSection =>
      MergeHttps(c.https);
      SectionReadsBack(c, s, plain);
    case WireguardSection =>
      MergeWireguard(c.wireguard);
      SectionReadsBack(c, s, plain);
    case _ =>
      MergeSelf(SectionJson(c, s));
      SectionReadsBack(c, s, plain);
  }

  /** Putting any section back exactly as it was read leaves the whole config unchanged, secrets
      included, exactly when the first of the stored networks with an SSID decides for the others: for
      all of them when the section is the networks', else for those stored without a password. */
  lemma {:induction false} PutBack(c: Config, s: Section, plain: PlainReader)
    requires ReadsBack(c, plain)
    ensures SectionPut(c, s, SectionGet(c, s), plain) == Some(c) <==>
            if s.WifiSection? then FirstDecides(c.wifi.networks) else FirstDecidesBlanks(c.wifi.networks)
  {
    var nets := c.wifi.networks;
    PutBackReads(c, s, plain);
    if s.WifiSection? {
      RestoreBlankNets(nets);
      var d := c.(wifi := c.wifi.(networks := BlankNets(nets)));
      assert Restored(d, c).wifi == c.wifi.(networks := RestoredNets(BlankNets(nets), nets));
      assert Restored(d, c).(wifi := c.wifi) == c;
    } else {
      RestoreOwnNets(nets);
      var d := if s.AdminToken? then c.(adminToken := "") else c;
      assert Restored(d, c).wifi == c.wifi.(networks := RestoredNets(nets, nets));
      assert Restored(d, c).(wifi := c.wifi) == c;
    }
  }

  /** With distinct stored SSIDs every section can be put back. */
  lemma {:induction false} PutBackDistinct(c: Config, s: Section, plain: PlainReader)
    requires ReadsBack(c, plain) && DistinctSsids(c.wifi.networks)
    ensures SectionPut(c, s, SectionGet(c, s), plain) == Some(c)
  {
    DistinctDecides(c.wifi.networks);
    PutBack(c, s, plain);
  }

  /** The two configs agree on one section. */
  predicate SameSection(d: Config, c: Config, s: Section) {
    match s
    case WifiSection => d.wifi == c.wifi
    case MqttSection => d.mqtt == c.mqtt
    case HttpsSection => d.https == c.https
    case WireguardSection => d.wireguard == c.wireguard
    case AdminToken => d.adminToken == c.adminToken
    case _ => SectionJson(d, s) == SectionJson(c, s)
  }

  lemma {:induction false} WithSectionKeeps(c: Config, s: Section, j: Json, plain: PlainReader, other: Section)
    requires other != s && WithSection(c, s, j, plain).Some?
    ensures SameSection(WithSection(c, s, j, plain).value, c, other)
  {
  }

  lemma {:induction false} RestoredKeeps(d: Config, c: Config, other: Section)
    requires SameSection(d, c, other)
    ensures SameSection(Restored(d, c), c, other) <==> (other.WifiSection? ==> FirstDecidesBlanks(c.wifi.networks))
  {
    if other.WifiSection? {
      RestoreOwnNets(c.wifi.networks);
      assert c.wifi.(networks := c.wifi.networks) == c.wifi;
    }
  }

  /** Whatever the body, an update of one section leaves every other one as it was, with one exception:
      it fills the blank password of a stored network whose SSID an earlier one carries with a
      password. */
  lemma {:induction false} OtherSectionsKept(c: Config, s: Section, body: Json, plain: PlainReader, other: Section)
    requires other != s && SectionPut(c, s, body, plain).Some?
    ensures SameSection(SectionPut(c, s, body, plain).value, c, other) <==>
            (other.WifiSection? ==> FirstDecidesBlanks(c.wifi.networks))
  {
    var j := Merge(SectionJson(c, s), body);
    WithSectionKeeps(c, s, j, plain, other);
    RestoredKeeps(WithSection(c, s, j, plain).value, c, other);
  }

  /** For instance an open network stored after a protected one of the same name. */
  lemma {:induction false} OtherPutFillsPassword(c: Config, s: Section, body: Json, plain: PlainReader)
    requires c.wifi.networks == [Net("a", "x"), Net("a", "")]
    requires !s.WifiSection? && SectionPut(c, s, body, plain).Some?
    ensures SectionPut(c, s, body, plain).value.wifi.networks == [Net("a", "x"), Net("a", "x")]
  {
    var j := Merge(SectionJson(c, s), body);
    WithSectionKeeps(c, s, j, plain, WifiSection);
    assert FirstPassword(c.wifi.networks, "a") == Some("x");
  }
}
