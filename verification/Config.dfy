/** The runtime configuration, its redaction for the API and the restoring of blank secrets:
    `crates/core/src/config.rs`; its sections as JSON values. Sections without secrets are kept as
    JSON trees. */
module Configs {
  import opened Wrappers
  import opened JsonTrees

  datatype Net = Net(ssid: string, password: string)

  datatype Wifi = Wifi(networks: seq<Net>, hostname: string, apSsid: string, apPassword: string)

  datatype Mqtt = Mqtt(brokerUrl: string, username: string, password: string, baseTopic: string,
                       haDiscoveryPrefix: string, enabled: bool, caCertPem: string, clientCertPem: string,
                       clientKeyPem: string)

  datatype Https = Https(enabled: bool, certPem: string, keyPem: string)

  datatype Wireguard = Wireguard(enabled: bool, address: string, privateKey: string, peerEndpoint: string,
                                 peerPublicKey: string, peerPresharedKey: string, peerAllowedIps: seq<string>,
                                 keepaliveSecs: nat)

  datatype Config = Config(wifi: Wifi, mqtt: Mqtt, https: Https, switches: Json, sensors: Json, flowAlarm: Json,
                           timezone: Json, sntpServers: Json, schedule: Json, wireguard: Wireguard,
                           adminToken: string, webhooks: Json)

  // ---------------------------------------------------------------- redaction

  function BlankNets(nets: seq<Net>): (r: seq<Net>)
    ensures |r| == |nets|
    ensures forall i :: 0 <= i < |nets| ==> r[i] == Net(nets[i].ssid, "")
  {
    seq(|nets|, i requires 0 <= i < |nets| => Net(nets[i].ssid, ""))
  }

  function Redacted(c: Config): Config {
    c.(wifi := c.wifi.(networks := BlankNets(c.wifi.networks)),
       mqtt := c.mqtt.(password := "", clientKeyPem := ""),
       https := c.https.(keyPem := ""),
       wireguard := c.wireguard.(privateKey := "", peerPresharedKey := ""),
       adminToken := "")
  }

  method RedactSecretsForApi(c: Config) returns (out: Config)
    ensures out == Redacted(c)
  {
    out := c;
    var nets := c.wifi.networks;
    for i := 0 to |nets|
      invariant |nets| == |c.wifi.networks|
      invariant forall k :: 0 <= k < i ==> nets[k] == Net(c.wifi.networks[k].ssid, "")
      invariant forall k :: i <= k < |nets| ==> nets[k] == c.wifi.networks[k]
    {
      nets := nets[i := nets[i].(password := "")];
    }
    assert nets == BlankNets(c.wifi.networks);
    out := out.(wifi := out.wifi.(networks := nets));
    out := out.(mqtt := out.mqtt.(password := ""));
    out := out.(mqtt := out.mqtt.(clientKeyPem := ""));
    out := out.(https := out.https.(keyPem := ""));
    out := out.(wireguard := out.wireguard.(privateKey := ""));
    out := out.(wireguard := out.wireguard.(peerPresharedKey := ""));
    out := out.(adminToken := "");
  }

  /** The two configs differ at most in their secrets. */
  ghost predicate SameButSecrets(c: Config, d: Config) {
    && |c.wifi.networks| == |d.wifi.networks|
    && (forall i :: 0 <= i < |c.wifi.networks| ==> c.wifi.networks[i].ssid == d.wifi.networks[i].ssid)
    && c.wifi.(networks := []) == d.wifi.(networks := [])
    && c.mqtt.(password := "", clientKeyPem := "") == d.mqtt.(password := "", clientKeyPem := "")
    && c.https.(keyPem := "") == d.https.(keyPem := "")
    && c.wireguard.(privateKey := "", peerPresharedKey := "") == d.wireguard.(privateKey := "", peerPresharedKey := "")
    && (c.switches, c.sensors, c.flowAlarm, c.timezone) == (d.switches, d.sensors, d.flowAlarm, d.timezone)
    && (c.sntpServers, c.schedule, c.webhooks) == (d.sntpServers, d.schedule, d.webhooks)
  }

  /** The redacted form shows everything but the secrets and nothing of them. */
  lemma {:induction false} RedactionHidesExactlySecrets(c: Config, d: Config)
    ensures Redacted(c) == Redacted(d) <==> SameButSecrets(c, d)
  {
    var (a, b) := (c.wifi.networks, d.wifi.networks);
    if SameButSecrets(c, d) {
      assert BlankNets(a) == BlankNets(b);
      assert c.wifi.(networks := BlankNets(a)) == d.wifi.(networks := BlankNets(b));
    }
    if Redacted(c) == Redacted(d) {
      assert BlankNets(a) == BlankNets(b);
      forall i | 0 <= i < |a| ensures a[i].ssid == b[i].ssid {
        assert BlankNets(a)[i] == BlankNets(b)[i];
      }
    }
  }

  // ---------------------------------------------------------------- restoring

  /** The password of the first network with this SSID. */
  function FirstPassword(nets: seq<Net>, ssid: string): Option<string> {
    if nets == [] then None
    else if nets[0].ssid == ssid then Some(nets[0].password)
    else FirstPassword(nets[1..], ssid)
  }

  method FindNet(nets: seq<Net>, ssid: string) returns (r: Option<string>)
    ensures r == FirstPassword(nets, ssid)
  {
    var i := 0;
    while i < |nets|
      invariant 0 <= i <= |nets| && FirstPassword(nets, ssid) == FirstPassword(nets[i..], ssid)
    {
      assert nets[i..][1..] == nets[i + 1..];
      if nets[i].ssid == ssid {
        return Some(nets[i].password);
      }
      i := i + 1;
    }
    r := None;
  }

  function RestoredNet(net: Net, stored: seq<Net>): Net {
    if net.password == "" && FirstPassword(stored, net.ssid).Some?
    then net.(password := FirstPassword(stored, net.ssid).value)
    else net
  }

  function RestoredNets(nets: seq<Net>, stored: seq<Net>): (r: seq<Net>)
    ensures |r| == |nets| && forall i :: 0 <= i < |nets| ==> r[i] == RestoredNet(nets[i], stored)
  {
    seq(|nets|, i requires 0 <= i < |nets| => RestoredNet(nets[i], stored))
  }

  function Kept(incoming: string, stored: string): string {
    if incoming == "" then stored else incoming
  }

  function Restored(c: Config, stored: Config): Config {
    c.(wifi := c.wifi.(networks := RestoredNets(c.wifi.networks, stored.wifi.networks)),
       mqtt := c.mqtt.(password := Kept(c.mqtt.password, stored.mqtt.password),
                       clientKeyPem := Kept(c.mqtt.clientKeyPem, stored.mqtt.clientKeyPem)),
       https := c.https.(keyPem := Kept(c.https.keyPem, stored.https.keyPem)),
       wireguard := c.wireguard.(privateKey := Kept(c.wireguard.privateKey, stored.wireguard.privateKey),
                                 peerPresharedKey :=
                                   Kept(c.wireguard.peerPresharedKey, stored.wireguard.peerPresharedKey)),
       adminToken := Kept(c.adminToken, stored.adminToken))
  }

  method RestoreSecretsFrom(c: Config, stored: Config) returns (out: Config)
    ensures out == Restored(c, stored)
  {
    var nets := c.wifi.networks;
    for i := 0 to |nets|
      invariant |nets| == |c.wifi.networks|
      invariant forall k :: 0 <= k < i ==> nets[k] == RestoredNet(c.wifi.networks[k], stored.wifi.networks)
      invariant forall k :: i <= k < |nets| ==> nets[k] == c.wifi.networks[k]
    {
      if nets[i].password == "" {
        var existing := FindNet(stored.wifi.networks, nets[i].ssid);
        if existing.Some? {
          nets := nets[i := nets[i].(password := existing.value)];
        }
      }
    }
    assert nets == RestoredNets(c.wifi.networks, stored.wifi.networks);
    out := c.(wifi := c.wifi.(networks := nets));
    out := RestoreScalars(out, stored);
  }

  method RestoreScalars(c: Config, stored: Config) returns (out: Config)
    ensures out == Restored(c, stored).(wifi := c.wifi)
  {
    var (m, h, w, token) := (c.mqtt, c.https, c.wireguard, c.adminToken);
    if m.password == "" {
      m := m.(password := stored.mqtt.password);
    }
    if m.clientKeyPem == "" {
      m := m.(clientKeyPem := stored.mqtt.clientKeyPem);
    }
    if h.keyPem == "" {
      h := h.(keyPem := stored.https.keyPem);
    }
    if w.privateKey == "" {
      w := w.(privateKey := stored.wireguard.privateKey);
    }
    if w.peerPresharedKey == "" {
      w := w.(peerPresharedKey := stored.wireguard.peerPresharedKey);
    }
    if token == "" {
      token := stored.adminToken;
    }
    out := c.(mqtt := m, https := h, wireguard := w, adminToken := token);
  }

  // ---------------------------------------------------------------- when restoring is exact

  ghost predicate DistinctSsids(nets: seq<Net>) {
    forall i, j :: 0 <= i < j < |nets| ==> nets[i].ssid != nets[j].ssid
  }

  /** Networks that share an SSID share its first password. */
  ghost predicate FirstDecides(nets: seq<Net>) {
    forall i :: 0 <= i < |nets| ==> FirstPassword(nets, nets[i].ssid) == Some(nets[i].password)
  }

  /** The same, asked only of the networks stored without a password. */
  ghost predicate FirstDecidesBlanks(nets: seq<Net>) {
    forall i :: 0 <= i < |nets| && nets[i].password == "" ==> FirstPassword(nets, nets[i].ssid) == Some("")
  }

  lemma {:induction false} FirstExists(nets: seq<Net>, i: nat)
    requires i < |nets|
    ensures FirstPassword(nets, nets[i].ssid).Some?
  {
    if i > 0 { FirstExists(nets[1..], i - 1); }
  }

  lemma {:induction false} DistinctDecides(nets: seq<Net>)
    requires DistinctSsids(nets)
    ensures FirstDecides(nets)
  {
    forall i | 0 <= i < |nets| ensures FirstPassword(nets, nets[i].ssid) == Some(nets[i].password) {
      DistinctFirst(nets, i);
    }
  }

  lemma {:induction false} DistinctFirst(nets: seq<Net>, i: nat)
    requires DistinctSsids(nets) && i < |nets|
    ensures FirstPassword(nets, nets[i].ssid) == Some(nets[i].password)
  {
    if i > 0 {
      assert nets[0].ssid != nets[i].ssid;
      forall a, b | 0 <= a < b < |nets| - 1 ensures nets[1..][a].ssid != nets[1..][b].ssid {
        assert nets[a + 1].ssid != nets[b + 1].ssid;
      }
      DistinctFirst(nets[1..], i - 1);
    }
  }

  lemma {:induction false} RestoreBlankNets(nets: seq<Net>)
    ensures RestoredNets(BlankNets(nets), nets) == nets <==> FirstDecides(nets)
  {
    var r := RestoredNets(BlankNets(nets), nets);
    forall i | 0 <= i < |nets|
      ensures r[i] == nets[i] <==> FirstPassword(nets, nets[i].ssid) == Some(nets[i].password)
    {
      FirstExists(nets, i);
      assert r[i] == Net(nets[i].ssid, FirstPassword(nets, nets[i].ssid).value);
    }
    if r == nets {
      assert forall i :: 0 <= i < |nets| ==> r[i] == nets[i];
    }
  }

  lemma {:induction false} RestoreOwnNets(nets: seq<Net>)
    ensures RestoredNets(nets, nets) == nets <==> FirstDecidesBlanks(nets)
  {
    var r := RestoredNets(nets, nets);
    forall i | 0 <= i < |nets|
      ensures r[i] == nets[i] <==>
              (nets[i].password == "" ==> FirstPassword(nets, nets[i].ssid) == Some(""))
    {
      FirstExists(nets, i);
    }
    if r == nets {
      assert forall i :: 0 <= i < |nets| ==> r[i] == nets[i];
    }
  }

  /** Restoring a fully redacted config against its original gives back the original exactly when
      networks that share an SSID share a password, distinct SSIDs in particular. */
  lemma {:induction false} RestoreRedacted(c: Config)
    ensures Restored(Redacted(c), c) == c <==> FirstDecides(c.wifi.networks)
    ensures DistinctSsids(c.wifi.networks) ==> Restored(Redacted(c), c) == c
  {
    var nets := c.wifi.networks;
    RestoreBlankNets(nets);
    assert Restored(Redacted(c), c).wifi == c.wifi.(networks := RestoredNets(BlankNets(nets), nets));
    assert Restored(Redacted(c), c).(wifi := c.wifi) == c;
    if DistinctSsids(nets) { DistinctDecides(nets); }
  }

  /** Two stored networks with one SSID: the second password is lost. */
  lemma {:induction false} SharedSsidLoses(c: Config)
    requires c.wifi.networks == [Net("home", "first"), Net("home", "second")]
    ensures Restored(Redacted(c), c).wifi.networks == [Net("home", "first"), Net("home", "first")]
  {
    var nets := c.wifi.networks;
    assert FirstPassword(nets, "home") == Some("first");
    assert Restored(Redacted(c), c).wifi.networks == RestoredNets(BlankNets(nets), nets);
  }

  /** Restoring twice is restoring once. */
  lemma {:induction false} RestoreIdempotent(c: Config, stored: Config)
    ensures Restored(Restored(c, stored), stored) == Restored(c, stored)
  {
    var (a, b) := (c.wifi.networks, stored.wifi.networks);
    var once := RestoredNets(a, b);
    forall i | 0 <= i < |a| ensures RestoredNet(once[i], b) == once[i] {
      if a[i].password == "" && FirstPassword(b, a[i].ssid).Some? {
        assert once[i].ssid == a[i].ssid;
      }
    }
    assert RestoredNets(once, b) == once;
  }
}
