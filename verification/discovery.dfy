/** Discovery of the monitored devices (ZenBridgeBaconRecovery.java:52-74).

    Every directory of the VFIO-PCI driver whose name starts with "00" is a candidate device;
    its canonical path's parent is its bridge. The candidate is kept, mapped to that bridge,
    when the first four bytes of the bridge's configuration stream are the Zen bridge tag. */
module Discovery {
  import opened PciConfig
  import opened ConfigStore

  /** One entry of the driver directory's listing, with the canonical path it resolves to. */
  datatype RegistryEntry = RegistryEntry(name: string, isDirectory: bool, realPath: Path)

  /** How the bridge of a candidate is classified. */
  datatype Probe = Recognized | UnknownBridge | ProbeFailed

  /** The filter at ZenBridgeBaconRecovery.java:55: a directory whose name starts with "00". */
  function IsCandidate(e: RegistryEntry): (b: bool)
    ensures b <==> e.isDirectory && |e.name| >= 2 && e.name[0] == '0' && e.name[1] == '0'
  {
    e.isDirectory && "00" <= e.name
  }

  /** Reading the first four bytes of `bridge`'s configuration stream into a fresh `byte[4]` and
      classifying them (ZenBridgeBaconRecovery.java:61-63). A short read leaves zeros behind, so
      only a stream that really begins with the tag is recognised. */
  function ProbeBridge(s: Store, bridge: Path): (p: Probe)
    ensures p == ProbeFailed <==> !s.CanRead(bridge)
    ensures p == Recognized <==> s.CanRead(bridge) && |s.files[bridge]| >= 4 && s.files[bridge][..4] == ZEN_BRIDGE_TAG
  {
    if !s.CanRead(bridge) then ProbeFailed
    else
      var id := ReadInto(Zeros(4), s.files[bridge], 0);
      ReadIntoFresh(s.files[bridge], 4);
      if IsZenBridgeTag(id) then Recognized else UnknownBridge
  }

  /** The device-to-bridge mapping after scanning `entries` in order: each recognised candidate
      is put under its device path. Every value is the parent of its key. */
  function Discovered(entries: seq<RegistryEntry>, s: Store, parent: Path -> Path): (m: map<Path, Path>)
    ensures forall d :: d in m ==> m[d] == parent(d)
  {
    if entries == [] then map[]
    else
      var m := Discovered(entries[..|entries| - 1], s, parent);
      var e := entries[|entries| - 1];
      if IsCandidate(e) && ProbeBridge(s, parent(e.realPath)) == Recognized then m[e.realPath := parent(e.realPath)]
      else m
  }

  /** A device is in the mapping exactly when some candidate entry resolves to it and its
      bridge is recognised. */
  lemma {:induction false} DiscoveredKeys(entries: seq<RegistryEntry>, s: Store, parent: Path -> Path, d: Path)
    ensures d in Discovered(entries, s, parent) <==>
              (exists i :: 0 <= i < |entries| && IsCandidate(entries[i]) && entries[i].realPath == d)
              && ProbeBridge(s, parent(d)) == Recognized
  {
    if entries != [] {
      var init := entries[..|entries| - 1];
      DiscoveredKeys(init, s, parent, d);
      if exists i :: 0 <= i < |init| && IsCandidate(init[i]) && init[i].realPath == d {
        var i :| 0 <= i < |init| && IsCandidate(init[i]) && init[i].realPath == d;
        assert entries[i] == init[i];
      }
      if exists i :: 0 <= i < |entries| && IsCandidate(entries[i]) && entries[i].realPath == d {
        var i :| 0 <= i < |entries| && IsCandidate(entries[i]) && entries[i].realPath == d;
        if i < |init| {
          assert init[i] == entries[i];
        }
      }
    }
  }

  /** Scanning more entries never removes or changes a mapping already made. */
  lemma {:induction false} DiscoveredGrows(entries: seq<RegistryEntry>, s: Store, parent: Path -> Path, i: nat, j: nat)
    requires i <= j <= |entries|
    ensures var before, after := Discovered(entries[..i], s, parent), Discovered(entries[..j], s, parent);
            forall d :: d in before ==> d in after && after[d] == before[d]
  {
    if i < j {
      DiscoveredGrows(entries, s, parent, i, j - 1);
      assert entries[..j][..j - 1] == entries[..j - 1];
    }
  }

  /** An entry that is skipped, because it is not a candidate, its bridge's tag is unknown or
      reading the bridge failed, leaves the mapping exactly as it was. */
  lemma SkippedEntryLeavesMap(entries: seq<RegistryEntry>, s: Store, parent: Path -> Path, i: nat)
    requires i < |entries|
    requires !(IsCandidate(entries[i]) && ProbeBridge(s, parent(entries[i].realPath)) == Recognized)
    ensures Discovered(entries[..i + 1], s, parent) == Discovered(entries[..i], s, parent)
  {
    assert entries[..i + 1][..i] == entries[..i];
  }

  /** An entry that is not a candidate is never looked at: removing it, whatever it resolves to
      and whatever its bridge holds, leaves the mapping as it is. */
  lemma {:induction false} NonCandidateIgnored(xs: seq<RegistryEntry>, e: RegistryEntry, ys: seq<RegistryEntry>, s: Store, parent: Path -> Path)
    requires !IsCandidate(e)
    ensures Discovered(xs + [e] + ys, s, parent) == Discovered(xs + ys, s, parent)
  {
    if ys == [] {
      assert xs + [e] + ys == xs + [e];
      assert (xs + [e])[..|xs|] == xs;
      assert xs + ys == xs;
    } else {
      var ys' := ys[..|ys| - 1];
      NonCandidateIgnored(xs, e, ys', s, parent);
      assert (xs + [e] + ys)[..|xs + [e] + ys| - 1] == xs + [e] + ys';
      assert (xs + ys)[..|xs + ys| - 1] == xs + ys';
    }
  }

  /** The mapping depends on the configuration streams only through the classification of the
      bridges of candidate entries. */
  lemma {:induction false} DiscoveredReadsOnlyCandidateBridges(entries: seq<RegistryEntry>, s1: Store, s2: Store, parent: Path -> Path)
    requires forall i :: 0 <= i < |entries| && IsCandidate(entries[i]) ==>
               ProbeBridge(s1, parent(entries[i].realPath)) == ProbeBridge(s2, parent(entries[i].realPath))
    ensures Discovered(entries, s1, parent) == Discovered(entries, s2, parent)
  {
    if entries != [] {
      var init := entries[..|entries| - 1];
      forall i | 0 <= i < |init| && IsCandidate(init[i])
        ensures ProbeBridge(s1, parent(init[i].realPath)) == ProbeBridge(s2, parent(init[i].realPath))
      {
        assert init[i] == entries[i];
      }
      DiscoveredReadsOnlyCandidateBridges(init, s1, s2, parent);
    }
  }

  /** The discovery loop (ZenBridgeBaconRecovery.java:54-74): fills the mapping in place, one
      listing entry at a time; an unknown tag or an IOException on the bridge skips the entry. */
  method Discover(fs: Sysfs, entries: seq<RegistryEntry>, parent: Path -> Path) returns (bridgeMapping: map<Path, Path>)
    ensures bridgeMapping == Discovered(entries, fs.State(), parent)
  {
    bridgeMapping := map[];
    var i := 0;
    while i < |entries|
      invariant 0 <= i <= |entries|
      invariant bridgeMapping == Discovered(entries[..i], fs.State(), parent)
    {
      var f := entries[i];
      assert entries[..i + 1][..i] == entries[..i];
      if IsCandidate(f) {
        var devicePath := f.realPath;
        var bridgePath := parent(devicePath);
        var config := OpenInput(fs, bridgePath);
        if config.Ok? {
          var id := new byte[4](_ => 0);
          var read := config.value.Read(id);
          if read.Ok? && IsZenBridgeTag(id[..]) {
            bridgeMapping := bridgeMapping[devicePath := bridgePath];
          }
        }
      }
      i := i + 1;
    }
    assert entries[..i] == entries;
  }
}
