# Zen PCIe bridge recovery: a verified model

ZenBridgeBaconRecovery watches the PCI devices bound to the VFIO-PCI driver on AMD Zen
machines. After a secondary-bus reset, a device behind a Zen PCIe bridge can drop off the
bus. The tool works in two parts:

- **Discovery.** It lists `/sys/bus/pci/drivers/vfio-pci`. Every directory whose name starts
  with `00` is a candidate device, and the candidate's parent directory is its bridge. The
  candidate is kept when the bridge's first four configuration bytes are `22 10 53 14`. That
  is AMD's Vendor ID 0x1022 and Device ID 0x1453, stored little-endian (PCI Local Bus
  Specification 3.0, section 6.1).
- **Monitoring.** For each kept device it polls the first four configuration bytes. If the
  first two read `FF FF`, the device is lost: its Vendor ID reads 0xFFFF, the "no function"
  value of section 6.2.1 of the same specification. The tool then snapshots 512 bytes of the
  bridge's configuration and writes them back, and re-reads the device to report whether it
  recovered.

The model takes the sysfs configuration streams as an abstract store. It is a map from a
directory's path to the bytes of its `config` stream, plus a set of streams whose opening or
reading fails and a set whose opening or writing fails.

- `ConfigStore` gives the store the semantics of Java's streams:
  - `read(buf)` returns -1 at the end of the stream. Otherwise it returns as many bytes as
    fit in `buf` and remain in the stream, and overwrites only that many cells of `buf`.
  - A write on a freshly opened stream replaces the leading bytes of the stream.
- `PciConfig` states the two byte tests exactly as Java evaluates them, on signed bytes. It
  proves what they mean in terms of the PCI Vendor ID and Device ID registers.
- `Discovery` models the scan as a method whose loop builds the mapping in place. The method
  is proved against a function of the listing and the store, and lemmas describe that
  function.
- `Recovery` models the body of the monitor loop for one entry, and one pass over the
  mapping, the same way.

Three behaviours of the code are kept as written:

- The code writes the whole 512-byte buffer back, not just the count it read
  (ZenBridgeBaconRecovery.java:92).
- The check after the rewrite reads from the stream opened for the poll. That stream is
  already past the four bytes the poll consumed, so the check looks at bytes 4 and 5 of the
  device's configuration (the Command register), not at the Vendor ID. The stream opened at
  line 98 is never read.
- An IOException on the device's stream is not caught inside the loop. It ends the program
  (line 35 declares `throws IOException`). The model shows this for the poll (lines 80-82);
  for the check (lines 98-99) see `Recovery.EntryStep` under "## Left out".

## Model

| member | source | states |
|---|---|---|
| `PciConfig.Signed` | ZenBridgeBaconRecovery.java:83 | Java's value of a byte-array element lies in -128..127 and is congruent to the stored octet modulo 256 |
| `PciConfig.IsZenBridgeTag` | ZenBridgeBaconRecovery.java:63 | the signed comparison with 0x22, 0x10, 0x53, 0x14 holds exactly when the four bytes are the tag, that is Vendor ID 0x1022 and Device ID 0x1453 |
| `PciConfig.IsLostSignature` | ZenBridgeBaconRecovery.java:83 | the comparison of the first two signed bytes with -1 holds exactly when both are 0xFF, that is the Vendor ID reads 0xFFFF |
| `ConfigStore.ReadCount` | ZenBridgeBaconRecovery.java:82 | `read(b)` returns 0 for an empty buffer, -1 exactly at the end of the stream, and otherwise a positive count no larger than the buffer or the bytes left, stopping short only at the end of the stream |
| `ConfigStore.ReadInto` | ZenBridgeBaconRecovery.java:82 | after `read(b)` the first count cells hold the next bytes of the stream and every other cell keeps what it held |
| `ConfigStore.ReadIntoFresh` | ZenBridgeBaconRecovery.java:61-62 | a read from the start into a fresh buffer yields the stream's first bytes followed by zeros; a short stream never fills the buffer |
| `ConfigStore.SnapshotRoundTrip` | ZenBridgeBaconRecovery.java:86-92 | writing back a full read of a stream's first n bytes leaves the stream unchanged |
| `ConfigStore.Overwrite` | ZenBridgeBaconRecovery.java:92 | after a write on a freshly opened stream, the stream begins with the data written, keeps the bytes beyond it and is never shorter than before |
| `ConfigStore.OpenInput` | ZenBridgeBaconRecovery.java:80 | opening a stream for reading fails exactly when it cannot be read; a new stream stands at position 0 |
| `ConfigStore.ConfigInput.Read` | ZenBridgeBaconRecovery.java:82 | a read fails exactly on an unreadable stream; otherwise it returns the count, fills that many cells from the current position, keeps the other cells and advances the position |
| `ConfigStore.OpenOutput` | ZenBridgeBaconRecovery.java:89 | opening a stream for writing fails exactly when it cannot be written |
| `ConfigStore.ConfigOutput.Write` | ZenBridgeBaconRecovery.java:92 | a write fails exactly on an unwritable stream and then changes nothing; otherwise the written bytes replace the stream's leading bytes and nothing else changes |
| `Discovery.IsCandidate` | ZenBridgeBaconRecovery.java:55 | an entry is examined exactly when it is a directory and its name's first two characters are both '0' |
| `Discovery.ProbeBridge` | ZenBridgeBaconRecovery.java:60-72 | the probe fails exactly when the bridge's stream cannot be read; it recognises the bridge exactly when the stream has at least four bytes and they are the tag, so a short read never matches |
| `Discovery.Discovered` | ZenBridgeBaconRecovery.java:54-74 | every device in the mapping is mapped to its own parent path |
| `Discovery.DiscoveredKeys` | ZenBridgeBaconRecovery.java:55-65 | a device is in the mapping exactly when some directory entry whose name starts with "00" resolves to it and its parent's tag is recognised |
| `Discovery.DiscoveredGrows` | ZenBridgeBaconRecovery.java:65-72 | scanning further entries never removes or changes a mapping already made |
| `Discovery.SkippedEntryLeavesMap` | ZenBridgeBaconRecovery.java:55-72 | an entry that is not a candidate, whose bridge tag is unknown or whose bridge read fails leaves the map exactly as it was |
| `Discovery.NonCandidateIgnored` | ZenBridgeBaconRecovery.java:55 | an entry that is not a directory or whose name does not start with "00" can be removed from the listing without changing the result, whatever its configuration holds |
| `Discovery.DiscoveredReadsOnlyCandidateBridges` | ZenBridgeBaconRecovery.java:55-63 | the mapping depends on the store only through how the bridges of candidate entries are classified |
| `Discovery.Discover` | ZenBridgeBaconRecovery.java:52-74 | the scan loop, which inserts into the mapping in place, produces exactly the mapping the specification function describes |
| `Recovery.PollBytes` | ZenBridgeBaconRecovery.java:81-82 | the polled buffer holds the device's first bytes, up to four, followed by zeros |
| `Recovery.Rewrite` | ZenBridgeBaconRecovery.java:86-97 | the snapshot-and-rewrite backs off exactly when the bridge's stream cannot be read or written, and then changes nothing; it never changes another stream or shortens one |
| `Recovery.RewriteRoundTrip` | ZenBridgeBaconRecovery.java:86-92 | after a successful snapshot of N bytes (N = -1 for an empty stream), the bridge's stream holds the N bytes read and then zeros up to 512, keeps what lay beyond, and is unchanged when it held at least 512 bytes |
| `Recovery.EntryStep` | ZenBridgeBaconRecovery.java:80-107 | a step aborts exactly when the device cannot be read, and then changes nothing; it is healthy exactly when the polled bytes are not FF FF, and then changes nothing; otherwise the rewrite's outcome is reported, a back-off included, and the check still runs |
| `Recovery.BackOffStillChecks` | ZenBridgeBaconRecovery.java:94-98 | when the bridge's stream cannot be opened, read or written, the exception is caught, nothing is written and the device is still checked |
| `Recovery.VerificationReadsOffsetFour` | ZenBridgeBaconRecovery.java:98-105 | after a lost poll of a stream of at least four bytes, "recovered" is reported exactly when bytes 4 and 5 of the device's stream are not both 0xFF; a byte past the end counts as 0xFF, the value left in the buffer |
| `Recovery.Pass` | ZenBridgeBaconRecovery.java:79-109 | a pass yields one result per entry unless one aborts, which is then the last; only the streams of mapped bridges can change |
| `Recovery.AbortIsFinal` | ZenBridgeBaconRecovery.java:79-108 | once a step has aborted, later entries are not visited |
| `Recovery.HealthyPassIsNoOp` | ZenBridgeBaconRecovery.java:79-83 | when every device answers, a pass reports Healthy for each and leaves every stream as it was |
| `Recovery.PassAbortsOnUnreadableDevice` | ZenBridgeBaconRecovery.java:80-99 | a pass aborts exactly when one of the devices it visits cannot be read |
| `Recovery.RewriteBridge` | ZenBridgeBaconRecovery.java:86-97 | the inner `try` block, with its two streams and caught IOException, has exactly the effect `Rewrite` describes |
| `Recovery.PollEntry` | ZenBridgeBaconRecovery.java:80-107 | the loop body, with its stream positions and its mutable `id` buffer, has exactly the effect and result `EntryStep` describes |
| `Recovery.MonitorPass` | ZenBridgeBaconRecovery.java:79-109 | the `for` loop over the entry set has exactly the effect and results `Pass` describes |

## Left out

- Startup checks (lines 41-50): the driver directory missing or not readable and writable,
  followed by `System.exit(-1)`. This is environment and permission plumbing.
- `toRealPath` (line 56): a listing entry carries its canonical path. The IOException that
  `toRealPath` can raise outside the `try` is not modelled.
- `getParent` (line 60) is a function parameter on paths. A path without a parent, for which
  `getParent` gives null and the next call fails, is not modelled.
- Opening the discovery stream through a URL (line 62): it is modelled as an ordinary input
  stream on the same file.
- The endless `while (true)`, `Thread.sleep(100)` and `Thread.sleep(10000)` (lines 78, 96,
  110), and the InterruptedException they can raise. The model covers one step and one pass.
  The 10-second back-off appears only as the `BackedOff` outcome.
- Logging and console output (lines 31-38 and every `log` call). Their only effect is text.
- Closing streams and their lifetimes (the try-with-resources at lines 80, 87-90 and 98; the
  discovery stream is never closed).
- HashMap iteration order. A pass takes any order that enumerates the mapping.
- The hardware effect of rewriting a bridge's configuration. A rewrite only changes the
  store, and a device's stream changes only if it is the bridge's own.
- `Recovery.EntryStep`: whether a stream can be read is fixed per path for the whole step. So
  once the poll (lines 80-82) has read the device, re-opening and re-reading it at lines 98-99
  succeed too. The source can end the program there, after line 92 has rewritten the bridge;
  the model cannot. Its abort branches for lines 98-99 are kept but cannot be taken, and an
  aborted step never leaves a rewritten bridge behind.
- `ConfigStore.ConfigInput.Read`: a read returns the largest count the stream allows. Java
  also allows shorter reads, and those are not modelled.
- `ConfigStore.ConfigOutput.Write`: a failing write changes nothing, so a partial write is
  not modelled. Opening for writing does not truncate, as with a sysfs attribute. The
  truncation of a regular file is not modelled, and neither is the error sysfs gives for a
  write past the end of a fixed-size attribute. A stream shorter than the data grows instead.
