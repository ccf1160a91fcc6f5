/** JSON values as trees, and the merge of a section update: `merge` of
    `crates/firmware-nostd/src/webapi.rs`. */
module JsonTrees {
  import opened Wrappers

  /** Object keys: the field names of the modelled config sections, and any other name. */
  datatype Key =
    | Networks | Ssid | Password | Hostname | ApSsid | ApPassword
    | BrokerUrl | Username | BaseTopic | HaDiscoveryPrefix | Enabled | CaCertPem | ClientCertPem | ClientKeyPem
    | CertPem | KeyPem
    | Address | PrivateKey | PeerEndpoint | PeerPublicKey | PeerPresharedKey | PeerAllowedIps | KeepaliveSecs
    | Other(name: string)

  datatype Json =
    | Null
    | Bool(b: bool)
    | Num(n: int)
    | Float(x: real)
    | Str(s: string)
    | Arr(items: seq<Json>)
    | Obj(fields: map<Key, Json>)

  /** A blank string in an update is skipped. */
  predicate Sets(o: map<Key, Json>, k: Key) {
    k in o && o[k] != Str("")
  }

  function Merge(t: Json, o: Json): Json
    decreases o
  {
    if t.Obj? && o.Obj? then
      Obj(map k | k in t.fields.Keys + o.fields.Keys && (k in t.fields || Sets(o.fields, k)) ::
            if !Sets(o.fields, k) then t.fields[k]
            else if k in t.fields then Merge(t.fields[k], o.fields[k])
            else o.fields[k])
    else o
  }

  /** What one entry of the overlay makes of the target. */
  function MergedAt(t: map<Key, Json>, o: map<Key, Json>, k: Key): Json
    requires k in o
  {
    if k in t then Merge(t[k], o[k]) else o[k]
  }

  /** The target after the overlay's entries with keys in `done`. */
  ghost predicate Partly(t: map<Key, Json>, o: map<Key, Json>, done: set<Key>, out: map<Key, Json>) {
    && (forall k :: k in out <==> k in t || (k in done && Sets(o, k)))
    && (forall k :: k in out ==>
          out[k] == if k in done && Sets(o, k) then MergedAt(t, o, k) else t[k])
  }

  lemma {:induction false} PartlyNext(t: map<Key, Json>, o: map<Key, Json>, done: set<Key>, out: map<Key, Json>, k: Key)
    requires Partly(t, o, done, out) && k in o && k !in done
    ensures k in out <==> k in t
    ensures k in t ==> out[k] == t[k]
    ensures Sets(o, k) ==> Partly(t, o, done + {k}, out[k := MergedAt(t, o, k)])
    ensures !Sets(o, k) ==> Partly(t, o, done + {k}, out)
  {
  }

  lemma {:induction false} PartlyAll(t: map<Key, Json>, o: map<Key, Json>, out: map<Key, Json>)
    requires Partly(t, o, o.Keys, out)
    ensures Obj(out) == Merge(Obj(t), Obj(o))
  {
    assert out == Merge(Obj(t), Obj(o)).fields;
  }

  /** The loop over the overlay's entries, in any order, with a recursive call for each key the target
      already has. */
  method MergeInto(target: Json, overlay: Json) returns (r: Json)
    ensures r == Merge(target, overlay)
    decreases overlay, 1
  {
    if !target.Obj? || !overlay.Obj? {
      return overlay;
    }
    var out := MergeFields(target.fields, overlay);
    r := Obj(out);
    PartlyAll(target.fields, overlay.fields, out);
  }

  method MergeFields(t: map<Key, Json>, overlay: Json) returns (out: map<Key, Json>)
    requires overlay.Obj?
    ensures Partly(t, overlay.fields, overlay.fields.Keys, out)
    decreases overlay, 0
  {
    var o := overlay.fields;
    out := t;
    var todo := o.Keys;
    while todo != {}
      invariant todo <= o.Keys
      invariant Partly(t, o, o.Keys - todo, out)
      decreases |todo|
    {
      var k :| k in todo;
      PartlyNext(t, o, o.Keys - todo, out, k);
      assert (o.Keys - todo) + {k} == o.Keys - (todo - {k});
      if o[k] != Str("") {
        if k in out {
          var merged := MergeInto(out[k], o[k]);
          out := out[k := merged];
        } else {
          out := out[k := o[k]];
        }
      }
      todo := todo - {k};
    }
    assert o.Keys - {} == o.Keys;
  }

  lemma {:induction false} MergeSelf(x: Json)
    ensures Merge(x, x) == x
    decreases x
  {
    if x.Obj? {
      forall k | k in x.fields ensures Merge(x.fields[k], x.fields[k]) == x.fields[k] {
        MergeSelf(x.fields[k]);
      }
      assert Merge(x, x).fields == x.fields;
    }
  }

  /** Sending the same update twice is sending it once. */
  lemma {:induction false} MergeIdempotent(t: Json, o: Json)
    ensures Merge(Merge(t, o), o) == Merge(t, o)
    decreases o
  {
    if t.Obj? && o.Obj? {
      var r := Merge(t, o);
      forall k | k in r.fields && Sets(o.fields, k) ensures Merge(r.fields[k], o.fields[k]) == r.fields[k] {
        if k in t.fields {
          MergeIdempotent(t.fields[k], o.fields[k]);
        } else {
          MergeSelf(o.fields[k]);
        }
      }
      assert Merge(r, o).fields == r.fields;
    } else {
      MergeSelf(o);
    }
  }

  /** An update reaches no key it does not set, and a blank never erases a value. */
  lemma {:induction false} MergeLeaves(t: Json, o: Json, k: Key)
    requires t.Obj? && o.Obj? && !Sets(o.fields, k)
    ensures k in Merge(t, o).fields <==> k in t.fields
    ensures k in t.fields ==> Merge(t, o).fields[k] == t.fields[k]
  {
    assert Merge(t, o).Obj?;
  }

  /** The value at the end of a path of keys. */
  function Follow(j: Json, path: seq<Key>): Option<Json> {
    if path == [] then Some(j)
    else if j.Obj? && path[0] in j.fields then Follow(j.fields[path[0]], path[1..])
    else None
  }

  /** Every leaf of an update, at any depth, is taken over, unless it is a blank string. */
  lemma {:induction false} MergeTakesLeaves(t: Json, o: Json, path: seq<Key>)
    requires Follow(o, path).Some? && !Follow(o, path).value.Obj?
    requires path != [] ==> Follow(o, path).value != Str("")
    ensures Follow(Merge(t, o), path) == Follow(o, path)
  {
    if path != [] && t.Obj? && path[0] in t.fields {
      MergeTakesLeaves(t.fields[path[0]], o.fields[path[0]], path[1..]);
    }
  }
}
