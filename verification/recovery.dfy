/** The monitor loop (ZenBridgeBaconRecovery.java:78-111): one step for one mapping entry and
    one pass over the whole mapping.

    A step polls the device's first four configuration bytes. When the device has dropped off
    the bus (its Vendor ID reads 0xFFFF) the bridge's configuration is snapshotted into a fresh
    512-byte buffer and the whole buffer is written back; then the device is read once more to
    decide whether it came back. As in ZenBridgeBaconRecovery.java:
    - the whole 512-byte buffer is written, whatever count the read returned;
    - the second device read goes to the stream opened for the poll, which already stands past
      the four bytes it returned, and not to the stream opened for the check;
    - an IOException on the device's stream is not caught and ends the program. In this model
      stream failures are fixed per path, so once the poll has read the device the check at
      lines 98-99 reads it too; the abort branches there are kept but cannot be taken. */
module Recovery {
  import opened PciConfig
  import opened ConfigStore

  /** Size of the buffer the bridge configuration is snapshotted into (line 86). */
  const SNAPSHOT_SIZE: nat := 512

  /** What became of the snapshot-and-rewrite: the count the bridge read returned, or an
      IOException that was caught and followed by the 10-second back-off. */
  datatype Snapshot = Rewritten(count: int) | BackedOff

  /** The outcome of one step for one entry. */
  datatype StepResult =
    | Healthy                                    // the device answered; nothing was done
    | Checked(snapshot: Snapshot, recovered: bool)  // it had dropped off; the bridge was handled and the device re-read
    | Aborted                                    // an IOException on the device's stream left the program

  /** The buffer after the poll at lines 81-82: a fresh `byte[4]` read from the stream's start. */
  function PollBytes(content: seq<byte>): (id: seq<byte>)
    ensures id == content[..Min(4, |content|)] + Zeros(4 - Min(4, |content|))
  {
    ReadIntoFresh(content, 4);
    ReadInto(Zeros(4), content, 0)
  }

  /** Lines 86-97: snapshot up to 512 bytes of the bridge's stream into a zeroed buffer and write
      the whole buffer back. Only the bridge's stream can change; on an IOException nothing does. */
  function Rewrite(s: Store, bridge: Path): (r: (Snapshot, Store))
    ensures r.1.unreadable == s.unreadable && r.1.unwritable == s.unwritable && r.1.files.Keys == s.files.Keys
    ensures forall p :: p in s.files && p != bridge ==> r.1.files[p] == s.files[p]
    ensures forall p :: p in s.files ==> |r.1.files[p]| >= |s.files[p]|
    ensures r.0 == BackedOff <==> !s.CanRead(bridge) || !s.CanWrite(bridge)
    ensures r.0 == BackedOff ==> r.1 == s
  {
    if !s.CanRead(bridge) || !s.CanWrite(bridge) then (BackedOff, s)
    else
      var content := s.files[bridge];
      var data := ReadInto(Zeros(SNAPSHOT_SIZE), content, 0);
      (Rewritten(ReadCount(content, 0, SNAPSHOT_SIZE)), s.(files := s.files[bridge := Overwrite(content, data)]))
  }

  /** One step of the monitor loop for the entry `device` -> `bridge` (lines 80-107), as the
      result and the store it leaves. */
  function EntryStep(s: Store, device: Path, bridge: Path): (r: (StepResult, Store))
    ensures r.0 == Aborted <==> !s.CanRead(device)
    ensures r.0 == Healthy <==> s.CanRead(device) && !IsLostSignature(PollBytes(s.files[device]))
    ensures !r.0.Checked? ==> r.1 == s
    ensures r.0.Checked? ==> r.0.snapshot == Rewrite(s, bridge).0 && r.1 == Rewrite(s, bridge).1
  {
    if !s.CanRead(device) then (Aborted, s)
    else
      var content := s.files[device];
      var id := PollBytes(content);
      if !IsLostSignature(id) then (Healthy, s)
      else
        var (snapshot, s1) := Rewrite(s, bridge);
        if !s1.CanRead(device) then (Aborted, s1)
        else
          var pos := Advance(0, ReadCount(content, 0, 4));
          var again := ReadInto(id, s1.files[device], pos);
          (Checked(snapshot, !IsLostSignature(again)), s1)
  }

  /** A byte of `c`, or 0xFF where `c` has ended. */
  function ByteOrFF(c: seq<byte>, i: nat): byte {
    if i < |c| then c[i] else 0xFF
  }

  /** On the failure signature with a successful snapshot of N bytes, the bridge's stream starts
      with the N bytes read followed by zeros up to 512 bytes, keeps whatever lay beyond, and
      so is unchanged when it held at least 512 bytes. */
  lemma RewriteRoundTrip(s: Store, bridge: Path)
    requires s.CanRead(bridge) && s.CanWrite(bridge)
    ensures var (snapshot, s1) := Rewrite(s, bridge);
            var c, c1 := s.files[bridge], s1.files[bridge];
            var n := Min(|c|, SNAPSHOT_SIZE);
            && snapshot == Rewritten(if c == [] then -1 else n)
            && |c1| == Max(|c|, SNAPSHOT_SIZE)
            && c1[..n] == c[..n]
            && (forall i :: n <= i < SNAPSHOT_SIZE ==> c1[i] == 0)
            && c1[SNAPSHOT_SIZE..] == c[Min(SNAPSHOT_SIZE, |c|)..]
            && (|c| >= SNAPSHOT_SIZE ==> c1 == c)
  {
  }

  /** When the bridge's stream cannot be opened, read or written, the IOException is caught,
      the back-off is taken, nothing is written, and the device is still checked. */
  lemma BackOffStillChecks(s: Store, device: Path, bridge: Path)
    requires s.CanRead(device) && IsLostSignature(PollBytes(s.files[device]))
    requires !s.CanRead(bridge) || !s.CanWrite(bridge)
    ensures var (r, s1) := EntryStep(s, device, bridge);
            r.Checked? && r.snapshot == BackedOff && s1 == s
  {
  }

  /** When the device was lost and its stream held at least four bytes, the check at line 100
      looks at bytes 4 and 5 of the device's stream as it stands after the rewrite, where the
      poll's stream has got to; a byte past the end counts as 0xFF, the value left in `id`. */
  lemma VerificationReadsOffsetFour(s: Store, device: Path, bridge: Path)
    requires s.CanRead(device) && |s.files[device]| >= 4
    requires IsLostSignature(PollBytes(s.files[device]))
    ensures var (r, s1) := EntryStep(s, device, bridge);
            var c1 := s1.files[device];
            r.Checked? && (r.recovered <==> !(ByteOrFF(c1, 4) == 0xFF && ByteOrFF(c1, 5) == 0xFF))
  {
    var c := s.files[device];
    ReadIntoFresh(c, 4);
    var id := PollBytes(c);
    assert id == c[..4];
    var s1 := Rewrite(s, bridge).1;
    var c1 := s1.files[device];
    var again := ReadInto(id, c1, 4);
    if |c1| >= 6 {
      assert again[..2] == c1[4..6];
    } else if |c1| == 5 {
      assert ReadCount(c1, 4, 4) == 1;
      assert again == c1[4..5] + id[1..];
      assert again[0] == c1[4] && again[1] == id[1];
    } else {
      assert again == id;
    }
  }

  /** Iterating the entry set visits every mapped device once. */
  predicate Enumerates(order: seq<Path>, mapping: map<Path, Path>) {
    && (forall i :: 0 <= i < |order| ==> order[i] in mapping)
    && (forall d :: d in mapping ==> d in order)
    && (forall i, j :: 0 <= i < j < |order| ==> order[i] != order[j])
  }

  /** One pass of the `for` loop at line 79 over the entries in `order`: the step results in
      order and the store left behind. An aborted step ends the pass, and the program. Only the
      streams of mapped bridges can change. */
  function Pass(s: Store, mapping: map<Path, Path>, order: seq<Path>): (r: (seq<StepResult>, Store))
    requires forall i :: 0 <= i < |order| ==> order[i] in mapping
    ensures |r.0| <= |order|
    ensures Aborted !in r.0 ==> |r.0| == |order|
    ensures Aborted in r.0 ==> r.0[|r.0| - 1] == Aborted
    ensures forall k :: 0 <= k < |r.0| - 1 ==> r.0[k] != Aborted
    ensures r.1.unreadable == s.unreadable && r.1.unwritable == s.unwritable && r.1.files.Keys == s.files.Keys
    ensures forall p :: p in s.files && p !in mapping.Values ==> r.1.files[p] == s.files[p]
  {
    if order == [] then ([], s)
    else
      var (results, s1) := Pass(s, mapping, order[..|order| - 1]);
      if Aborted in results then (results, s1)
      else
        var device := order[|order| - 1];
        var (r, s2) := EntryStep(s1, device, mapping[device]);
        (results + [r], s2)
  }

  /** Proof helper for MonitorPass's loop: `Pass` unfolded at the prefix `order[..i + 1]`. */
  lemma PassExtends(s: Store, mapping: map<Path, Path>, order: seq<Path>, i: nat)
    requires forall k :: 0 <= k < |order| ==> order[k] in mapping
    requires i < |order| && Aborted !in Pass(s, mapping, order[..i]).0
    ensures var (results, s1) := Pass(s, mapping, order[..i]);
            var (r, s2) := EntryStep(s1, order[i], mapping[order[i]]);
            Pass(s, mapping, order[..i + 1]) == (results + [r], s2)
  {
    assert order[..i + 1][..i] == order[..i];
  }

  /** Once a step has aborted, no later entry is visited. */
  lemma {:induction false} AbortIsFinal(s: Store, mapping: map<Path, Path>, order: seq<Path>, i: nat)
    requires forall k :: 0 <= k < |order| ==> order[k] in mapping
    requires i <= |order| && Aborted in Pass(s, mapping, order[..i]).0
    ensures Pass(s, mapping, order) == Pass(s, mapping, order[..i])
  {
    if i < |order| {
      assert order[..|order| - 1][..i] == order[..i];
      AbortIsFinal(s, mapping, order[..|order| - 1], i);
    } else {
      assert order[..i] == order;
    }
  }

  /** A pass in which every device answers does nothing: one Healthy result per device and
      no stream written. */
  lemma {:induction false} HealthyPassIsNoOp(s: Store, mapping: map<Path, Path>, order: seq<Path>)
    requires forall i :: 0 <= i < |order| ==> order[i] in mapping
    requires forall i :: 0 <= i < |order| ==> s.CanRead(order[i]) && !IsLostSignature(PollBytes(s.files[order[i]]))
    ensures var (results, s1) := Pass(s, mapping, order);
            |results| == |order| && (forall k :: 0 <= k < |results| ==> results[k] == Healthy) && s1 == s
  {
    if order != [] {
      var init := order[..|order| - 1];
      assert forall i :: 0 <= i < |init| ==> init[i] == order[i];
      HealthyPassIsNoOp(s, mapping, init);
      var device := order[|order| - 1];
      assert EntryStep(s, device, mapping[device]) == (Healthy, s);
    }
  }

  /** A pass ends the program exactly when one of the devices it visits cannot be read. */
  lemma {:induction false} PassAbortsOnUnreadableDevice(s: Store, mapping: map<Path, Path>, order: seq<Path>)
    requires forall i :: 0 <= i < |order| ==> order[i] in mapping
    ensures Aborted in Pass(s, mapping, order).0 <==> exists i :: 0 <= i < |order| && !s.CanRead(order[i])
  {
    if order != [] {
      var init := order[..|order| - 1];
      assert forall i :: 0 <= i < |init| ==> init[i] == order[i];
      PassAbortsOnUnreadableDevice(s, mapping, init);
      var (results, s1) := Pass(s, mapping, init);
      var device := order[|order| - 1];
      assert s1.CanRead(device) <==> s.CanRead(device);
      if Aborted !in results {
        var r := EntryStep(s1, device, mapping[device]).0;
        assert Pass(s, mapping, order).0 == results + [r];
        assert Aborted in results + [r] <==> r == Aborted;
      }
    }
  }

  /** The inner `try` block at lines 86-97: read up to 512 bytes of the bridge's stream into a
      fresh buffer and write the whole buffer back through a second stream; an IOException from
      either stream is caught (and followed by the back-off). */
  method RewriteBridge(fs: Sysfs, bridge: Path) returns (snapshot: Snapshot)
    modifies fs`files
    ensures (snapshot, fs.State()) == Rewrite(old(fs.State()), bridge)
  {
    var data := new byte[SNAPSHOT_SIZE](_ => 0);
    snapshot := BackedOff;
    var bridgeIn := OpenInput(fs, bridge);
    if bridgeIn.IoError? {
      return;
    }
    var bridgeOut := OpenOutput(fs, bridge);
    if bridgeOut.IoError? {
      return;
    }
    var count := bridgeIn.value.Read(data);
    if count.IoError? {
      return;
    }
    assert data[..] == ReadInto(Zeros(SNAPSHOT_SIZE), fs.files[bridge], 0);
    var written := bridgeOut.value.Write(data);
    if written.Ok? {
      snapshot := Rewritten(count.value);
    }
  }

  /** The body of the `for` loop at lines 80-107 for one entry. */
  method PollEntry(fs: Sysfs, device: Path, bridge: Path) returns (r: StepResult)
    modifies fs`files
    ensures (r, fs.State()) == EntryStep(old(fs.State()), device, bridge)
  {
    var deviceOpen := OpenInput(fs, device);
    if deviceOpen.IoError? {
      return Aborted;
    }
    var deviceConfig := deviceOpen.value;
    var id := new byte[4](_ => 0);
    var polled := deviceConfig.Read(id);
    if polled.IoError? {
      return Aborted;
    }
    if !IsLostSignature(id[..]) {
      return Healthy;
    }
    // Lost contact: snapshot the bridge's configuration and write it back.
    var snapshot := RewriteBridge(fs, bridge);
    // Verify: a new stream is opened, but the poll's stream is the one read.
    var recoveryOpen := OpenInput(fs, device);
    if recoveryOpen.IoError? {
      return Aborted;
    }
    var again := deviceConfig.Read(id);
    if again.IoError? {
      return Aborted;
    }
    r := Checked(snapshot, !IsLostSignature(id[..]));
  }

  /** One pass of the monitor loop over every entry of the mapping, in the entry set's order. */
  method MonitorPass(fs: Sysfs, bridgeMapping: map<Path, Path>, order: seq<Path>) returns (results: seq<StepResult>)
    requires Enumerates(order, bridgeMapping)
    modifies fs`files
    ensures (results, fs.State()) == Pass(old(fs.State()), bridgeMapping, order)
  {
    results := [];
    var i := 0;
    while i < |order|
      invariant 0 <= i <= |order|
      invariant (results, fs.State()) == Pass(old(fs.State()), bridgeMapping, order[..i])
      invariant Aborted !in results
    {
      var device := order[i];
      PassExtends(old(fs.State()), bridgeMapping, order, i);
      var r := PollEntry(fs, device, bridgeMapping[device]);
      results := results + [r];
      if r == Aborted {
        AbortIsFinal(old(fs.State()), bridgeMapping, order, i + 1);
        return;
      }
      i := i + 1;
    }
    assert order[..i] == order;
  }
}
