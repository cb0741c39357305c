/** The configuration streams the tool reads and writes, as an abstract store.

    Every device or bridge directory has a `config` stream; the store maps the directory's
    path to the bytes of that stream. A stream can be missing, or be one whose opening and
    reading (or opening for writing and writing) raises an IOException. Streams are read and
    written with the semantics of Java's `FileInputStream` and `FileOutputStream`. */
module ConfigStore {
  import opened PciConfig

  type Path = string

  /** The outcome of one Java I/O call: its value, or an IOException. */
  datatype IoResult<T> = Ok(value: T) | IoError

  /** A snapshot of every configuration stream. */
  datatype Store = Store(files: map<Path, seq<byte>>, unreadable: set<Path>, unwritable: set<Path>)
  {
    /** Opening `p` for reading, and reading from it, succeed. */
    predicate CanRead(p: Path) {
      p in files && p !in unreadable
    }

    /** Opening `p` for writing, and writing to it, succeed. */
    predicate CanWrite(p: Path) {
      p in files && p !in unwritable
    }
  }

  /** A freshly allocated Java `byte[n]`. */
  function Zeros(n: nat): (z: seq<byte>)
    ensures |z| == n && forall i :: 0 <= i < n ==> z[i] == 0
  {
    seq(n, _ => 0)
  }

  function Min(a: int, b: int): int {
    if a < b then a else b
  }

  function Max(a: int, b: int): int {
    if a < b then b else a
  }

  /** What `InputStream.read(b)` returns on a stream at `pos` when `b` has `want` cells:
      0 for an empty buffer, -1 at the end of the stream, otherwise as many bytes as fit. */
  function ReadCount(content: seq<byte>, pos: nat, want: nat): (k: int)
    ensures want == 0 ==> k == 0
    ensures want > 0 ==> (k == -1 <==> pos >= |content|)
    ensures want > 0 && pos < |content| ==> 0 < k <= want && pos + k <= |content| && (k == want || pos + k == |content|)
  {
    if want == 0 then 0
    else if pos >= |content| then -1
    else Min(want, |content| - pos)
  }

  /** The stream position after a read that returned `count`. */
  function Advance(pos: nat, count: int): nat {
    if count > 0 then pos + count else pos
  }

  /** The buffer after `read(buf)` at `pos`: the first `count` cells receive the next bytes of
      the stream and the others keep what they held. */
  function ReadInto(buf: seq<byte>, content: seq<byte>, pos: nat): (r: seq<byte>)
    ensures |r| == |buf|
    ensures var k := ReadCount(content, pos, |buf|);
            && (forall i :: 0 <= i < k ==> r[i] == content[pos + i])
            && (forall i :: Max(k, 0) <= i < |buf| ==> r[i] == buf[i])
  {
    var count := ReadCount(content, pos, |buf|);
    if count <= 0 then buf else content[pos..pos + count] + buf[count..]
  }

  /** The stream after `write(data)` on a freshly opened output stream: `data` replaces the
      leading bytes, the bytes beyond it stay, and a shorter stream grows. */
  function Overwrite(content: seq<byte>, data: seq<byte>): (r: seq<byte>)
    ensures |r| == Max(|content|, |data|)
    ensures r[..|data|] == data && r[|data|..] == content[Min(|data|, |content|)..]
  {
    if |data| < |content| then data + content[|data|..] else data
  }

  /** Reading from the start into a fresh buffer yields the stream's first bytes followed by
      zeros; a stream shorter than the buffer never fills it. */
  lemma ReadIntoFresh(content: seq<byte>, n: nat)
    ensures ReadInto(Zeros(n), content, 0) == content[..Min(n, |content|)] + Zeros(n - Min(n, |content|))
  {
  }

  /** Writing back a full read of the first `n` bytes leaves the stream as it was. */
  lemma SnapshotRoundTrip(content: seq<byte>, n: nat)
    requires n <= |content|
    ensures Overwrite(content, ReadInto(Zeros(n), content, 0)) == content
  {
  }

  /** The configuration streams of the machine; reads leave them alone, writes replace them. */
  class Sysfs {
    var files: map<Path, seq<byte>>
    const unreadable: set<Path>
    const unwritable: set<Path>

    constructor (files: map<Path, seq<byte>>, unreadable: set<Path>, unwritable: set<Path>)
      ensures State() == Store(files, unreadable, unwritable)
    {
      this.files := files;
      this.unreadable := unreadable;
      this.unwritable := unwritable;
    }

    function State(): Store
      reads this
    {
      Store(files, unreadable, unwritable)
    }
  }

  /** A `FileInputStream` on one configuration stream: a read position that each read advances. */
  class ConfigInput {
    const fs: Sysfs
    const path: Path
    var pos: nat

    constructor (fs: Sysfs, path: Path)
      ensures this.fs == fs && this.path == path && pos == 0
    {
      this.fs := fs;
      this.path := path;
      pos := 0;
    }

    /** `read(buf)`: fills `buf` from the current position and returns the count. */
    method Read(buf: array<byte>) returns (r: IoResult<int>)
      modifies this, buf
      ensures r.Ok? <==> fs.State().CanRead(path)
      ensures r.Ok? ==> && r.value == ReadCount(fs.files[path], old(pos), buf.Length)
                        && buf[..] == ReadInto(old(buf[..]), fs.files[path], old(pos))
                        && pos == Advance(old(pos), r.value)
      ensures r.IoError? ==> buf[..] == old(buf[..]) && pos == old(pos)
    {
      if path !in fs.files || path in fs.unreadable {
        return IoError;
      }
      var content := fs.files[path];
      var count := ReadCount(content, pos, buf.Length);
      if count > 0 {
        forall i | 0 <= i < count {
          buf[i] := content[pos + i];
        }
        assert buf[..] == content[old(pos)..old(pos) + count] + old(buf[..])[count..];
      }
      pos := Advance(pos, count);
      r := Ok(count);
    }
  }

  /** `new FileInputStream(path)`: fails when the stream cannot be read. */
  method OpenInput(fs: Sysfs, path: Path) returns (r: IoResult<ConfigInput>)
    ensures r.Ok? <==> fs.State().CanRead(path)
    ensures r.Ok? ==> fresh(r.value) && r.value.fs == fs && r.value.path == path && r.value.pos == 0
  {
    if path !in fs.files || path in fs.unreadable {
      return IoError;
    }
    var input := new ConfigInput(fs, path);
    r := Ok(input);
  }

  /** A `FileOutputStream` on one configuration stream, positioned at its start. */
  class ConfigOutput {
    const fs: Sysfs
    const path: Path

    constructor (fs: Sysfs, path: Path)
      ensures this.fs == fs && this.path == path
    {
      this.fs := fs;
      this.path := path;
    }

    /** `write(data)`: all of `data`, from the start of the stream. */
    method Write(data: array<byte>) returns (r: IoResult<()>)
      modifies fs`files
      ensures r.Ok? <==> old(fs.State()).CanWrite(path)
      ensures fs.files == if r.Ok? then old(fs.files)[path := Overwrite(old(fs.files[path]), data[..])]
                          else old(fs.files)
    {
      if path !in fs.files || path in fs.unwritable {
        return IoError;
      }
      fs.files := fs.files[path := Overwrite(fs.files[path], data[..])];
      r := Ok(());
    }
  }

  /** `new FileOutputStream(path)`: fails when the stream cannot be written. */
  method OpenOutput(fs: Sysfs, path: Path) returns (r: IoResult<ConfigOutput>)
    ensures r.Ok? <==> fs.State().CanWrite(path)
    ensures r.Ok? ==> fresh(r.value) && r.value.fs == fs && r.value.path == path
  {
    if path !in fs.files || path in fs.unwritable {
      return IoError;
    }
    var output := new ConfigOutput(fs, path);
    r := Ok(output);
  }
}
