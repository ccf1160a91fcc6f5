/** What an update makes of the secrets, field by field. */
module ConfigSecrets {
  import opened Wrappers
  import opened Configs

  /** A secret sent is adopted; a blank one leaves what was stored. */
  predicate Taken(sent: string, stored: string, now: string) {
    (sent != "" ==> now == sent) && (sent == "" ==> now == stored)
  }

  /** Network `j` of the list is its first with this SSID. */
  predicate FirstWith(nets: seq<Net>, ssid: string, j: nat) {
    j < |nets| && nets[j].ssid == ssid && forall k :: 0 <= k < j ==> nets[k].ssid != ssid
  }

  /** A network password sent is adopted; a blank one is that of the first stored network with the SSID, or
      stays blank if there is none. */
  ghost predicate NetTaken(sent: Net, stored: seq<Net>, now: Net) {
    && now.ssid == sent.ssid
    && (sent.password != "" ==> now.password == sent.password)
    && (sent.password == "" ==>
         (forall j :: 0 <= j < |stored| && FirstWith(stored, sent.ssid, j) ==> now.password == stored[j].password) &&
         ((forall j :: 0 <= j < |stored| ==> stored[j].ssid != sent.ssid) ==> now.password == ""))
  }

  ghost predicate NetsTaken(sent: seq<Net>, stored: seq<Net>, now: seq<Net>) {
    |now| == |sent| && forall i :: 0 <= i < |sent| ==> NetTaken(sent[i], stored, now[i])
  }

  /** Every secret by these rules, everything else as sent. */
  ghost predicate Adopted(sent: Config, stored: Config, now: Config) {
    && NetsTaken(sent.wifi.networks, stored.wifi.networks, now.wifi.networks)
    && Taken(sent.mqtt.password, stored.mqtt.password, now.mqtt.password)
    && Taken(sent.mqtt.clientKeyPem, stored.mqtt.clientKeyPem, now.mqtt.clientKeyPem)
    && Taken(sent.https.keyPem, stored.https.keyPem, now.https.keyPem)
    && Taken(sent.wireguard.privateKey, stored.wireguard.privateKey, now.wireguard.privateKey)
    && Taken(sent.wireguard.peerPresharedKey, stored.wireguard.peerPresharedKey, now.wireguard.peerPresharedKey)
    && Taken(sent.adminToken, stored.adminToken, now.adminToken)
    && SameButSecrets(sent, now)
  }

  lemma {:induction false} FirstIsFirst(nets: seq<Net>, ssid: string)
    ensures forall j :: 0 <= j < |nets| && FirstWith(nets, ssid, j) ==>
      FirstPassword(nets, ssid) == Some(nets[j].password)
    ensures (forall j :: 0 <= j < |nets| ==> nets[j].ssid != ssid) ==> FirstPassword(nets, ssid) == None
  {
    if nets != [] && nets[0].ssid != ssid {
      FirstIsFirst(nets[1..], ssid);
      forall j | 0 <= j < |nets| && FirstWith(nets, ssid, j)
        ensures FirstPassword(nets, ssid) == Some(nets[j].password)
      {
        assert FirstWith(nets[1..], ssid, j - 1);
      }
      if forall j :: 0 <= j < |nets| ==> nets[j].ssid != ssid {
        assert forall j :: 0 <= j < |nets| - 1 ==> nets[1..][j] == nets[j + 1];
      }
    }
  }

  lemma {:induction false} RestoredNetTaken(sent: Net, stored: seq<Net>)
    ensures NetTaken(sent, stored, RestoredNet(sent, stored))
  {
    FirstIsFirst(stored, sent.ssid);
  }

  /** That is what restoring does. */
  lemma {:induction false} RestoringAdopts(sent: Config, stored: Config)
    ensures Adopted(sent, stored, Restored(sent, stored))
  {
    var (nets, r) := (sent.wifi.networks, Restored(sent, stored));
    forall i | 0 <= i < |nets| ensures NetTaken(nets[i], stored.wifi.networks, r.wifi.networks[i]) {
      RestoredNetTaken(nets[i], stored.wifi.networks);
    }
  }

  ghost predicate NothingBlank(c: Config) {
    && (forall i :: 0 <= i < |c.wifi.networks| ==> c.wifi.networks[i].password != "")
    && c.mqtt.password != "" && c.mqtt.clientKeyPem != "" && c.https.keyPem != ""
    && c.wireguard.privateKey != "" && c.wireguard.peerPresharedKey != "" && c.adminToken != ""
  }

  /** A config without a blank secret is taken exactly as sent. */
  lemma {:induction false} TakenAsSent(sent: Config, stored: Config, now: Config)
    requires Adopted(sent, stored, now) && NothingBlank(sent)
    ensures now == sent
  {
    var (a, b) := (sent.wifi.networks, now.wifi.networks);
    forall i | 0 <= i < |a| ensures b[i] == a[i] {
      assert NetTaken(a[i], stored.wifi.networks, b[i]);
    }
    assert b == a;
    assert now.wifi == now.wifi.(networks := []).(networks := b);
    assert sent.wifi == sent.wifi.(networks := []).(networks := a);
    SameScalars(sent, now);
  }

  lemma {:induction false} SameScalars(c: Config, d: Config)
    requires SameButSecrets(c, d) && c.mqtt.password == d.mqtt.password && c.mqtt.clientKeyPem == d.mqtt.clientKeyPem
    requires c.https.keyPem == d.https.keyPem && c.wireguard.privateKey == d.wireguard.privateKey
    requires c.wireguard.peerPresharedKey == d.wireguard.peerPresharedKey
    ensures c.mqtt == d.mqtt && c.https == d.https && c.wireguard == d.wireguard
  {
  }
}
