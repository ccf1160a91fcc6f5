/** What a section update makes of each field of its section, from the request's JSON. */
module ConfigUpdates {
  import opened Wrappers
  import opened JsonTrees
  import opened Configs
  import opened ConfigSecrets
  import opened ConfigApis

  /** A field after an update: as sent, unless it is not there or blank. */
  predicate Updated(o: map<Key, Json>, k: Key, stored: string, now: string) {
    if k in o && o[k] != Str("") then o[k] == Str(now) else now == stored
  }

  predicate UpdatedFlag(o: map<Key, Json>, k: Key, stored: bool, now: bool) {
    if k in o && o[k] != Str("") then o[k] == Bool(now) else now == stored
  }

  /** Sections that are objects take nothing else. */
  lemma {:induction false} ObjectsOnly(c: Config, s: Section, body: Json, plain: PlainReader)
    requires (s.WifiSection? || s.MqttSection? || s.HttpsSection? || s.WireguardSection?) && !body.Obj?
    ensures SectionPut(c, s, body, plain) == None
  {
  }

  lemma {:induction false} MergedField(t: map<Key, Json>, o: map<Key, Json>, k: Key)
    requires k in t && !t[k].Obj?
    ensures var r := Merge(Obj(t), Obj(o));
      r.Obj? && k in r.fields && r.fields[k] == if k in o && o[k] != Str("") then o[k] else t[k]
  {
  }

  /** Field by field, for a target without nested objects. */
  ghost predicate MergedBy(t: map<Key, Json>, o: map<Key, Json>, r: map<Key, Json>) {
    forall k :: k in t ==> k in r && r[k] == if k in o && o[k] != Str("") then o[k] else t[k]
  }

  lemma {:induction false} MergeIsBy(t: map<Key, Json>, o: map<Key, Json>)
    requires forall k :: k in t ==> !t[k].Obj?
    ensures Merge(Obj(t), Obj(o)).Obj? && MergedBy(t, o, Merge(Obj(t), Obj(o)).fields)
  {
    forall k | k in t ensures MergedAs(t, o, k) {
      MergedField(t, o, k);
    }
  }

  lemma {:induction false} MqttFields(m: Mqtt, o: map<Key, Json>, r: map<Key, Json>)
    requires MergedBy(MqttJson(m).fields, o, r) && ReadMqtt(Obj(r)).Some?
    ensures MqttUpdated(o, m, ReadMqtt(Obj(r)).value)
  {
  }

  predicate MqttUpdated(o: map<Key, Json>, m: Mqtt, r: Mqtt) {
    && Updated(o, BrokerUrl, m.brokerUrl, r.brokerUrl) && Updated(o, Username, m.username, r.username)
    && Updated(o, Password, m.password, r.password) && Updated(o, BaseTopic, m.baseTopic, r.baseTopic)
    && Updated(o, HaDiscoveryPrefix, m.haDiscoveryPrefix, r.haDiscoveryPrefix)
    && Updated(o, CaCertPem, m.caCertPem, r.caCertPem)
    && Updated(o, ClientCertPem, m.clientCertPem, r.clientCertPem)
    && Updated(o, ClientKeyPem, m.clientKeyPem, r.clientKeyPem)
    && UpdatedFlag(o, Enabled, m.enabled, r.enabled)
  }

  lemma {:induction false} MqttUpdate(c: Config, body: Json, plain: PlainReader)
    requires body.Obj? && SectionPut(c, MqttSection, body, plain).Some?
    ensures MqttUpdated(body.fields, c.mqtt, SectionPut(c, MqttSection, body, plain).value.mqtt)
  {
    var t := MqttJson(c.mqtt).fields;
    MergeIsBy(t, body.fields);
    MqttFields(c.mqtt, body.fields, Merge(Obj(t), Obj(body.fields)).fields);
  }

  predicate MergedAs(t: map<Key, Json>, o: map<Key, Json>, k: Key)
    requires k in t
  {
    var r := Merge(Obj(t), Obj(o));
    r.Obj? && k in r.fields && r.fields[k] == if k in o && o[k] != Str("") then o[k] else t[k]
  }

  lemma {:induction false} HttpsUpdate(c: Config, body: Json, plain: PlainReader)
    requires body.Obj? && SectionPut(c, HttpsSection, body, plain).Some?
    ensures var (o, h, r) := (body.fields, c.https, SectionPut(c, HttpsSection, body, plain).value.https);
      && UpdatedFlag(o, Enabled, h.enabled, r.enabled) && Updated(o, CertPem, h.certPem, r.certPem)
      && Updated(o, KeyPem, h.keyPem, r.keyPem)
  {
    var (t, o) := (HttpsJson(c.https).fields, body.fields);
    MergeIsBy(t, o);
  }

  predicate UpdatedNumber(o: map<Key, Json>, k: Key, stored: nat, now: nat) {
    if k in o && o[k] != Str("") then o[k] == Num(now) else now == stored
  }

  predicate UpdatedList(o: map<Key, Json>, k: Key, stored: seq<string>, now: seq<string>) {
    if k in o && o[k] != Str("") then
      o[k].Arr? && |o[k].items| == |now| && forall i :: 0 <= i < |now| ==> o[k].items[i] == Str(now[i])
    else now == stored
  }

  lemma {:induction false} StringsAre(items: seq<Json>)
    ensures ReadStrings(items).Some? ==>
      var r := ReadStrings(items).value; |r| == |items| && forall i :: 0 <= i < |r| ==> items[i] == Str(r[i])
  {
    if items != [] {
      StringsAre(items[1..]);
    }
  }

  predicate WireguardUpdated(o: map<Key, Json>, w: Wireguard, r: Wireguard) {
    && UpdatedFlag(o, Enabled, w.enabled, r.enabled) && Updated(o, Address, w.address, r.address)
    && Updated(o, PrivateKey, w.privateKey, r.privateKey)
    && Updated(o, PeerEndpoint, w.peerEndpoint, r.peerEndpoint)
    && Updated(o, PeerPublicKey, w.peerPublicKey, r.peerPublicKey)
    && Updated(o, PeerPresharedKey, w.peerPresharedKey, r.peerPresharedKey)
    && UpdatedList(o, PeerAllowedIps, w.peerAllowedIps, r.peerAllowedIps)
    && UpdatedNumber(o, KeepaliveSecs, w.keepaliveSecs, r.keepaliveSecs)
  }

  lemma {:induction false} WireguardFields(w: Wireguard, o: map<Key, Json>, r: map<Key, Json>)
    requires MergedBy(WireguardJson(w).fields, o, r) && ReadWireguard(Obj(r)).Some?
    ensures WireguardUpdated(o, w, ReadWireguard(Obj(r)).value)
  {
    StringsAre(r[PeerAllowedIps].items);
    StringsReadBack(w.peerAllowedIps);
  }

  lemma {:induction false} WireguardUpdate(c: Config, body: Json, plain: PlainReader)
    requires body.Obj? && SectionPut(c, WireguardSection, body, plain).Some?
    ensures WireguardUpdated(body.fields, c.wireguard,
      SectionPut(c, WireguardSection, body, plain).value.wireguard)
  {
    var t := WireguardJson(c.wireguard).fields;
    MergeIsBy(t, body.fields);
    WireguardFields(c.wireguard, body.fields, Merge(Obj(t), Obj(body.fields)).fields);
  }

  /** The whole body is the token; a blank one keeps the stored one. */
  lemma {:induction false} TokenUpdate(c: Config, body: Json, plain: PlainReader)
    ensures SectionPut(c, AdminToken, body, plain).Some? <==> body.Str?
    ensures body.Str? ==>
      SectionPut(c, AdminToken, body, plain).value.adminToken == if body.s == "" then c.adminToken else body.s
  {
  }

  /** One network sent, as an object with both names. */
  predicate SentNet(j: Json, net: Net) {
    j.Obj? && Ssid in j.fields && j.fields[Ssid] == Str(net.ssid) &&
    Password in j.fields && j.fields[Password] == Str(net.password)
  }

  lemma {:induction false} NetsAre(items: seq<Json>)
    ensures ReadNets(items).Some? ==>
      var r := ReadNets(items).value; |r| == |items| && forall i :: 0 <= i < |r| ==> SentNet(items[i], r[i])
  {
    if items != [] {
      NetsAre(items[1..]);
    }
  }

  /** The Wi-Fi section: the list of networks is replaced as a whole if one is sent, each password sent is
      adopted and each blank one looked up. */
  lemma {:induction false} WifiUpdate(c: Config, body: Json, plain: PlainReader) returns (sent: seq<Net>)
    requires body.Obj? && SectionPut(c, WifiSection, body, plain).Some?
    ensures var (o, w, r) := (body.fields, c.wifi, SectionPut(c, WifiSection, body, plain).value.wifi);
      && Updated(o, Hostname, w.hostname, r.hostname) && Updated(o, ApSsid, w.apSsid, r.apSsid)
      && Updated(o, ApPassword, w.apPassword, r.apPassword)
      && NetsTaken(sent, w.networks, r.networks)
      && if Networks in o && o[Networks] != Str("") then
           o[Networks].Arr? && |o[Networks].items| == |sent| &&
           forall i :: 0 <= i < |sent| ==> SentNet(o[Networks].items[i], sent[i])
         else sent == w.networks
  {
    var (t, o) := (WifiJson(c.wifi).fields, body.fields);
    MergeIsBy(t, o);
    var d := WithSection(c, WifiSection, Merge(WifiJson(c.wifi), body), plain).value;
    sent := d.wifi.networks;
    NetsAre(Merge(WifiJson(c.wifi), body).fields[Networks].items);
    NetsReadBack(c.wifi.networks);
    RestoringAdopts(d, c);
  }
}
