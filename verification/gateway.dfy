/** Gateway disambiguation (app.py:94-100). Every communication gateway is
    printed as the same generic label; the converter appends the value at the
    same index of the table's channel-type list. Both indices refer to the
    lists AFTER missing cells were dropped, so a missing cell in one column
    but not the other shifts the pairing. The model keeps that behaviour. */
module Gateway {
  import opened Wrappers
  import opened Catalog

  /** The guard of app.py:98: the channel column exists, its list is
      non-empty and reaches index `k`. */
  predicate HasChannel(channels: Option<seq<string>>, k: nat) {
    channels.Some? && |channels.value| > 0 && |channels.value| > k
  }

  /** The name at position `k` once disambiguation is done. */
  function QualifiedAt(modules: seq<string>, channels: Option<seq<string>>, k: nat): string
    requires k < |modules|
  {
    if modules[k] == GatewayLabel && HasChannel(channels, k)
    then GatewayLabel + " " + channels.value[k]
    else modules[k]
  }

  /** The module list of one table after disambiguation: one entry per
      name; an entry differs from its name only when that name is the bare
      gateway label and the channel list reaches its index, and then it is
      the label followed by a space and that channel value; every such entry
      does change. */
  function Qualify(modules: seq<string>, channels: Option<seq<string>>): (r: seq<string>)
    ensures |r| == |modules|
    ensures forall k :: 0 <= k < |r| && r[k] != modules[k] ==>
              modules[k] == GatewayLabel && HasChannel(channels, k) &&
              r[k] == modules[k] + " " + channels.value[k]
    ensures forall k :: 0 <= k < |r| && modules[k] == GatewayLabel && HasChannel(channels, k) ==>
              r[k] != modules[k]
  {
    assert forall k :: 0 <= k < |modules| && modules[k] == GatewayLabel && HasChannel(channels, k) ==>
             |QualifiedAt(modules, channels, k)| > |modules[k]|;
    seq(|modules|, k requires 0 <= k < |modules| => QualifiedAt(modules, channels, k))
  }

  /** Only gateway entries change, and a gateway entry gets the channel at its
      own index exactly when that channel exists; otherwise it stays bare. */
  lemma QualifyChangesOnlyGateways(modules: seq<string>, channels: Option<seq<string>>)
    ensures |Qualify(modules, channels)| == |modules|
    ensures forall k :: 0 <= k < |modules| && modules[k] != GatewayLabel ==>
              Qualify(modules, channels)[k] == modules[k]
    ensures forall k :: 0 <= k < |modules| && modules[k] == GatewayLabel ==>
              (Qualify(modules, channels)[k] != GatewayLabel <==> HasChannel(channels, k))
    ensures forall k :: 0 <= k < |modules| && modules[k] == GatewayLabel && HasChannel(channels, k) ==>
              Qualify(modules, channels)[k] == GatewayLabel + " " + channels.value[k]
  {
    forall k | 0 <= k < |modules| && modules[k] == GatewayLabel && HasChannel(channels, k)
      ensures Qualify(modules, channels)[k] != GatewayLabel
    {
      assert |Qualify(modules, channels)[k]| > |GatewayLabel|;
    }
  }

  /** Disambiguating twice is the same as once: a qualified name is no longer
      the bare label, and a bare label left alone stays without a channel. */
  lemma QualifyIdempotent(modules: seq<string>, channels: Option<seq<string>>)
    ensures Qualify(Qualify(modules, channels), channels) == Qualify(modules, channels)
  {
    QualifyChangesOnlyGateways(modules, channels);
    var once := Qualify(modules, channels);
    QualifyChangesOnlyGateways(once, channels);
    var twice := Qualify(once, channels);
    forall k | 0 <= k < |once| ensures twice[k] == once[k] {
      if once[k] == GatewayLabel {
        assert modules[k] == GatewayLabel;
        assert !HasChannel(channels, k);
      }
    }
  }

  /** Names without line breaks keep none after disambiguation, provided the
      channel values have none either. */
  lemma QualifyKeepsUnbroken(modules: seq<string>, channels: Option<seq<string>>)
    requires forall k :: 0 <= k < |modules| ==> '\n' !in modules[k]
    requires channels.Some? ==> forall k :: 0 <= k < |channels.value| ==> '\n' !in channels.value[k]
    ensures forall k :: 0 <= k < |modules| ==> '\n' !in Qualify(modules, channels)[k]
  {
    forall k | 0 <= k < |modules| ensures '\n' !in Qualify(modules, channels)[k] {
      if modules[k] == GatewayLabel && HasChannel(channels, k) {
        var q := GatewayLabel + " " + channels.value[k];
        assert forall i :: 0 <= i < |q| ==> q[i] != '\n' by {
          forall i | 0 <= i < |q| ensures q[i] != '\n' {
            if i < |GatewayLabel| + 1 {
            } else {
              assert q[i] == channels.value[k][i - |GatewayLabel| - 1];
            }
          }
        }
      }
    }
  }

  /** The positions at which the gateway label occurs, in increasing order
      (app.py:96). */
  method PositionsOf(names: seq<string>, target: string) returns (ps: seq<nat>)
    ensures forall i :: 0 <= i < |ps| ==> ps[i] < |names| && names[ps[i]] == target
    ensures forall i, j :: 0 <= i < j < |ps| ==> ps[i] < ps[j]
    ensures forall k :: 0 <= k < |names| && names[k] == target ==> k in ps
  {
    ps := [];
    var k := 0;
    while k < |names|
      invariant 0 <= k <= |names|
      invariant forall i :: 0 <= i < |ps| ==> ps[i] < k && names[ps[i]] == target
      invariant forall i, j :: 0 <= i < j < |ps| ==> ps[i] < ps[j]
      invariant forall m :: 0 <= m < k && names[m] == target ==> m in ps
    {
      if names[k] == target {
        ps := ps + [k];
      }
      k := k + 1;
    }
  }

  /** `r` is `modules` with exactly the positions in `done` disambiguated. */
  ghost predicate DoneAt(modules: seq<string>, channels: Option<seq<string>>, r: seq<string>, done: set<nat>) {
    && |r| == |modules|
    && forall k :: 0 <= k < |r| ==>
         r[k] == (if k in done then QualifiedAt(modules, channels, k) else modules[k])
  }

  lemma DoneStep(modules: seq<string>, channels: Option<seq<string>>, r: seq<string>, done: set<nat>, k: nat)
    requires DoneAt(modules, channels, r, done)
    requires k < |modules| && k !in done && modules[k] == GatewayLabel
    ensures HasChannel(channels, k) ==>
              DoneAt(modules, channels, r[k := r[k] + " " + channels.value[k]], done + {k})
    ensures !HasChannel(channels, k) ==> DoneAt(modules, channels, r, done + {k})
  {
  }

  lemma DoneAll(modules: seq<string>, channels: Option<seq<string>>, r: seq<string>, done: set<nat>)
    requires DoneAt(modules, channels, r, done)
    requires forall k :: 0 <= k < |modules| && modules[k] == GatewayLabel ==> k in done
    ensures r == Qualify(modules, channels)
  {
  }

  /** The disambiguation loop as the source writes it (app.py:95-100): find
      the gateway positions, then rewrite each one in place. It computes
      `Qualify`. */
  method Disambiguate(modules: seq<string>, channels: Option<seq<string>>) returns (r: seq<string>)
    ensures r == Qualify(modules, channels)
  {
    r := modules;
    ghost var done: set<nat> := {};
    if GatewayLabel in modules {
      var indexes := PositionsOf(modules, GatewayLabel);
      var n := 0;
      while n < |indexes|
        invariant 0 <= n <= |indexes|
        invariant done == set i | 0 <= i < n :: indexes[i]
        invariant DoneAt(modules, channels, r, done)
      {
        var k := indexes[n];
        assert k !in done;
        DoneStep(modules, channels, r, done, k);
        if channels.Some? && |channels.value| > 0 && |channels.value| > k {
          r := r[k := r[k] + " " + channels.value[k]];
        }
        done := done + {k};
        n := n + 1;
      }
      forall k | 0 <= k < |modules| && modules[k] == GatewayLabel ensures k in done {
        var i :| 0 <= i < |indexes| && indexes[i] == k;
      }
    }
    DoneAll(modules, channels, r, done);
  }
}
