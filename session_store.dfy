/**
 * The append-only session log (crates/sessions/src/store.rs): one file per
 * session key under a base directory, one JSON message per line.
 *
 * The file system is a map from path to the file's lines.  A line is either
 * text or a line that is not valid UTF-8 (BufRead::lines reports an error for
 * it).  `failing` holds the paths whose open, creation or removal fails.
 * serde_json is a Codec: a serializer and a parser that may fail; the round
 * trip lemmas assume it is Sound.
 */
module Sessions {
  import opened Wrappers
  import opened Text
  import opened Json

  type Path = string

  datatype Line = TextLine(text: string) | Invalid

  datatype StoreError = OpenFailed | InvalidUtf8 | RemoveFailed

  /** `e.to_string()` of a store error. */
  function ErrorMessage(e: StoreError): string {
    match e
    case OpenFailed => "failed to open the session file"
    case InvalidUtf8 => "stream did not contain valid UTF-8"
    case RemoveFailed => "failed to remove the session file"
  }

  /** serde_json::to_string and serde_json::from_str. */
  datatype Codec = Codec(serialize: Value -> string, parse: string -> Option<Value>)

  /** What serde_json guarantees: a serialized value is one non-blank line
      without surrounding whitespace, and parses back to the same value. */
  ghost predicate Sound(codec: Codec) {
    forall v: Value :: WellSerialized(codec, v, codec.serialize(v))
  }

  ghost predicate WellSerialized(codec: Codec, v: Value, s: string) {
    s != [] && !IsSpace(s[0]) && !IsSpace(s[|s| - 1]) && '\n' !in s && codec.parse(s) == Some(v)
  }

  const U32_LIMIT: int := 0x1_0000_0000

  // ---------------------------------------------------------------------
  // File names

  /** `key.replace(':', "_")`. */
  function KeyToFilename(key: string): (name: string)
    ensures |name| == |key| && ':' !in name
    ensures forall i :: 0 <= i < |key| && key[i] != ':' ==> name[i] == key[i]
    ensures forall i :: 0 <= i < |key| && key[i] == ':' ==> name[i] == '_'
    decreases |key|
  {
    if key == [] then []
    else [if key[0] == ':' then '_' else key[0]] + KeyToFilename(key[1..])
  }

  predicate ColonOrUnderscore(c: char) {
    c == ':' || c == '_'
  }

  /** Two keys are equal except that one may have ':' where the other has '_'. */
  predicate SameUpToColons(a: string, b: string) {
    |a| == |b| && forall i :: 0 <= i < |a| ==> a[i] == b[i] || (ColonOrUnderscore(a[i]) && ColonOrUnderscore(b[i]))
  }

  /** Two keys share a file name exactly when they differ only by ':' versus '_'. */
  lemma SharedFilename(a: string, b: string)
    ensures KeyToFilename(a) == KeyToFilename(b) <==> SameUpToColons(a, b)
  {
    var fa, fb := KeyToFilename(a), KeyToFilename(b);
    if fa == fb {
      forall i | 0 <= i < |a| ensures a[i] == b[i] || (ColonOrUnderscore(a[i]) && ColonOrUnderscore(b[i])) {
        assert fa[i] == fb[i];
      }
    }
    if SameUpToColons(a, b) {
      forall i | 0 <= i < |a| ensures fa[i] == fb[i] {
        if a[i] != b[i] { assert ColonOrUnderscore(a[i]) && ColonOrUnderscore(b[i]); }
      }
    }
  }

  /** `base.join(name)` (Path::push on Unix): an absolute name replaces the
      base; otherwise a '/' separates them unless the base is empty or
      already ends with one. */
  function JoinPath(base: Path, name: string): (p: Path)
    ensures name != [] && name[0] == '/' ==> p == name
    ensures |name| <= |p| && p[|p| - |name|..] == name
  {
    if name != [] && name[0] == '/' then name
    else if base == [] || base[|base| - 1] == '/' then base + name
    else base + "/" + name
  }

  /** `base_dir/<sanitised key>.jsonl`. */
  function PathFor(baseDir: Path, key: string): Path {
    JoinPath(baseDir, KeyToFilename(key) + ".jsonl")
  }

  /** Keys that differ only by ':' versus '_' share one file. */
  lemma SharedFile(baseDir: Path, a: string, b: string)
    requires SameUpToColons(a, b)
    ensures PathFor(baseDir, a) == PathFor(baseDir, b)
  {
    SharedFilename(a, b);
  }

  /** Relative keys with different file names get different path strings. */
  lemma DistinctFiles(baseDir: Path, a: string, b: string)
    requires !(a != [] && a[0] == '/') && !(b != [] && b[0] == '/')
    requires !SameUpToColons(a, b)
    ensures PathFor(baseDir, a) != PathFor(baseDir, b)
  {
    SharedFilename(a, b);
    var na, nb := KeyToFilename(a) + ".jsonl", KeyToFilename(b) + ".jsonl";
    assert na != nb by {
      if |a| == |b| {
        var i :| 0 <= i < |a| && KeyToFilename(a)[i] != KeyToFilename(b)[i];
        assert na[i] != nb[i];
      } else {
        assert |na| != |nb|;
      }
    }
    assert !(na != [] && na[0] == '/') by { if a != [] { assert na[0] == KeyToFilename(a)[0]; } }
    assert !(nb != [] && nb[0] == '/') by { if b != [] { assert nb[0] == KeyToFilename(b)[0]; } }
    var pa, pb := PathFor(baseDir, a), PathFor(baseDir, b);
    assert pa[|pa| - |na|..] == na;
    assert pb[|pb| - |nb|..] == nb;
    if |pa| == |pb| {
      assert |na| == |nb|;
    }
  }

  /** A key that starts with '/' is not kept under the base directory: its
      file is the key itself with `.jsonl` appended. */
  lemma AbsoluteKeyLeavesBaseDir(baseDir: Path, key: string)
    requires key != [] && key[0] == '/'
    ensures PathFor(baseDir, key) == KeyToFilename(key) + ".jsonl"
  {
    assert (KeyToFilename(key) + ".jsonl")[0] == KeyToFilename(key)[0];
  }

  // ---------------------------------------------------------------------
  // What a file holds

  /** The message one line contributes: none for an invalid or blank line or
      one that does not parse (a warning is logged), else the parsed value. */
  function LineMessages(codec: Codec, line: Line): (r: seq<Value>)
    ensures |r| <= 1
    ensures r != [] ==> line.TextLine? && Trim(line.text) != [] && codec.parse(Trim(line.text)) == Some(r[0])
  {
    match line
    case Invalid => []
    case TextLine(t) =>
      var trimmed := Trim(t);
      if trimmed == [] then []
      else match codec.parse(trimmed)
        case Some(v) => [v]
        case None => []
  }

  /** The chunks joined in order. */
  function Concat<T>(chunks: seq<seq<T>>): seq<T>
    decreases |chunks|
  {
    if chunks == [] then [] else Concat(chunks[..|chunks| - 1]) + chunks[|chunks| - 1]
  }

  lemma {:induction false} ConcatAppend<T>(a: seq<seq<T>>, b: seq<seq<T>>)
    ensures Concat(a + b) == Concat(a) + Concat(b)
    decreases |b|
  {
    if b == [] {
      assert a + b == a;
    } else {
      var init := b[..|b| - 1];
      ConcatAppend(a, init);
      assert (a + b)[..|a + b| - 1] == a + init;
    }
  }

  /** What each line contributes, in order. */
  function Chunks(codec: Codec, lines: seq<Line>): (cs: seq<seq<Value>>)
    ensures |cs| == |lines|
  {
    seq(|lines|, i requires 0 <= i < |lines| => LineMessages(codec, lines[i]))
  }

  /** The messages of a file's lines, in order. */
  function Messages(codec: Codec, lines: seq<Line>): seq<Value> {
    Concat(Chunks(codec, lines))
  }

  predicate AllText(lines: seq<Line>) {
    forall i :: 0 <= i < |lines| ==> lines[i].TextLine?
  }

  predicate NonBlankLine(line: Line) {
    line.TextLine? && Trim(line.text) != []
  }

  /** How many lines are valid text and not blank (malformed JSON included). */
  function NonBlankCount(lines: seq<Line>): nat
    decreases |lines|
  {
    if lines == [] then 0
    else NonBlankCount(lines[..|lines| - 1]) + (if NonBlankLine(lines[|lines| - 1]) then 1 else 0)
  }

  /** The last min(n, |s|) elements (`s[s.len().saturating_sub(n)..]`). */
  function LastN<T>(s: seq<T>, n: nat): (r: seq<T>)
    ensures |r| == if n < |s| then n else |s|
    ensures r == s[|s| - |r|..]
  {
    if n < |s| then s[|s| - n..] else s
  }

  /** What `read` returns for the file at `path`. */
  function ReadOutcome(codec: Codec, files: map<Path, seq<Line>>, failing: set<Path>, path: Path): Result<seq<Value>, StoreError> {
    if path !in files then Ok([])
    else if path in failing then Err(OpenFailed)
    else if !AllText(files[path]) then Err(InvalidUtf8)
    else Ok(Messages(codec, files[path]))
  }

  /** What `count` returns for the file at `path`: the number of non-blank
      lines, as a u32. */
  function CountOutcome(files: map<Path, seq<Line>>, failing: set<Path>, path: Path): Result<nat, StoreError> {
    if path !in files then Ok(0)
    else if path in failing then Err(OpenFailed)
    else Ok(NonBlankCount(files[path]) % U32_LIMIT)
  }

  // ---------------------------------------------------------------------
  // Properties of the file contents

  lemma ChunksAppend(codec: Codec, a: seq<Line>, b: seq<Line>)
    ensures Chunks(codec, a + b) == Chunks(codec, a) + Chunks(codec, b)
  {
  }

  lemma MessagesSnoc(codec: Codec, lines: seq<Line>, i: nat)
    requires i < |lines|
    ensures Messages(codec, lines[..i + 1]) == Messages(codec, lines[..i]) + LineMessages(codec, lines[i])
  {
    assert lines[..i + 1] == lines[..i] + [lines[i]];
    ChunksAppend(codec, lines[..i], [lines[i]]);
    ConcatAppend(Chunks(codec, lines[..i]), Chunks(codec, [lines[i]]));
    assert Chunks(codec, [lines[i]]) == [LineMessages(codec, lines[i])];
    assert Concat([LineMessages(codec, lines[i])]) == LineMessages(codec, lines[i]);
  }

  lemma NonBlankSnoc(lines: seq<Line>, i: nat)
    requires i < |lines|
    ensures NonBlankCount(lines[..i + 1]) == NonBlankCount(lines[..i]) + (if NonBlankLine(lines[i]) then 1 else 0)
  {
    assert lines[..i + 1][..i] == lines[..i];
  }

  /** Reading two stretches of lines gives the messages of the first, then those of the second. */
  lemma MessagesAppend(codec: Codec, a: seq<Line>, b: seq<Line>)
    ensures Messages(codec, a + b) == Messages(codec, a) + Messages(codec, b)
  {
    ChunksAppend(codec, a, b);
    ConcatAppend(Chunks(codec, a), Chunks(codec, b));
  }

  /** A blank, invalid or unparseable line can be dropped from anywhere
      without changing the messages, and the others keep their order. */
  lemma SkippedLine(codec: Codec, before: seq<Line>, line: Line, after: seq<Line>)
    requires line.Invalid? || Blank(line.text) || codec.parse(Trim(line.text)).None?
    ensures Messages(codec, before + [line] + after) == Messages(codec, before + after)
  {
    if line.TextLine? { TrimEmptyIffBlank(line.text); }
    assert LineMessages(codec, line) == [];
    assert Messages(codec, [line]) == Messages(codec, []) + LineMessages(codec, line);
    MessagesAppend(codec, before + [line], after);
    MessagesAppend(codec, before, [line]);
    MessagesAppend(codec, before, after);
  }

  /** A line holding a serialized value reads back as that value. */
  lemma SerializedLine(codec: Codec, v: Value)
    requires Sound(codec)
    ensures LineMessages(codec, TextLine(codec.serialize(v))) == [v]
  {
    var s := codec.serialize(v);
    assert WellSerialized(codec, v, s);
    TrimOfTrimmed(s);
  }

  /** Appending a serialized message adds exactly that message at the end. */
  lemma AppendReadsBack(codec: Codec, lines: seq<Line>, v: Value)
    requires Sound(codec)
    ensures Messages(codec, lines + [TextLine(codec.serialize(v))]) == Messages(codec, lines) + [v]
  {
    var more := lines + [TextLine(codec.serialize(v))];
    SerializedLine(codec, v);
    MessagesSnoc(codec, more, |lines|);
    assert more[..|lines|] == lines;
    assert more[..|lines| + 1] == more;
  }

  /** The lines `append` writes for the messages, in order. */
  function Serialized(codec: Codec, ms: seq<Value>): (lines: seq<Line>)
    ensures |lines| == |ms| && AllText(lines)
  {
    seq(|ms|, i requires 0 <= i < |ms| => TextLine(codec.serialize(ms[i])))
  }

  /** A file written by `append` alone reads back as the appended messages,
      in append order. */
  lemma {:induction false} WrittenReadsBack(codec: Codec, ms: seq<Value>)
    requires Sound(codec)
    ensures Messages(codec, Serialized(codec, ms)) == ms
    decreases |ms|
  {
    if ms != [] {
      var init := ms[..|ms| - 1];
      WrittenReadsBack(codec, init);
      assert Serialized(codec, ms) == Serialized(codec, init) + [TextLine(codec.serialize(ms[|ms| - 1]))];
      AppendReadsBack(codec, Serialized(codec, init), ms[|ms| - 1]);
      assert init + [ms[|ms| - 1]] == ms;
    }
  }

  /** Every parsed message comes from a non-blank line, so the count is at
      least the number of messages read. */
  lemma {:induction false} CountCoversMessages(codec: Codec, lines: seq<Line>)
    ensures NonBlankCount(lines) >= |Messages(codec, lines)|
    decreases |lines|
  {
    if lines != [] {
      var i := |lines| - 1;
      CountCoversMessages(codec, lines[..i]);
      MessagesSnoc(codec, lines, i);
      NonBlankSnoc(lines, i);
      assert lines[..i + 1] == lines;
    }
  }

  /** A file written by `append` alone counts one per message. */
  lemma {:induction false} WrittenCount(codec: Codec, ms: seq<Value>)
    requires Sound(codec)
    ensures NonBlankCount(Serialized(codec, ms)) == |ms|
    decreases |ms|
  {
    if ms != [] {
      var init := ms[..|ms| - 1];
      var lines := Serialized(codec, ms);
      WrittenCount(codec, init);
      assert lines[..|lines| - 1] == Serialized(codec, init);
      var s := codec.serialize(ms[|ms| - 1]);
      assert WellSerialized(codec, ms[|ms| - 1], s);
      TrimOfTrimmed(s);
    }
  }

  /** `read_last_n` with n at least the number of messages returns them all. */
  lemma LastNAll<T>(s: seq<T>, n: nat)
    requires n >= |s|
    ensures LastN(s, n) == s
  {
  }

  /** Of a file written by `append` alone, `read_last_n` gives the last
      min(n, |ms|) appended messages, in append order. */
  lemma LastNOfWritten(codec: Codec, ms: seq<Value>, n: nat)
    requires Sound(codec)
    ensures LastN(Messages(codec, Serialized(codec, ms)), n) == ms[|ms| - (if n < |ms| then n else |ms|)..]
  {
    WrittenReadsBack(codec, ms);
  }

  // ---------------------------------------------------------------------
  // The store

  /** The loop `read` and `read_last_n` share: each line in order, a line
      that is not UTF-8 fails the whole read, blank lines are skipped and a
      malformed one is dropped. */
  method ReadLines(codec: Codec, lines: seq<Line>) returns (r: Result<seq<Value>, StoreError>)
    ensures r == if AllText(lines) then Ok(Messages(codec, lines)) else Err(InvalidUtf8)
  {
    var messages := [];
    for i := 0 to |lines|
      invariant AllText(lines[..i])
      invariant messages == Messages(codec, lines[..i])
    {
      var line := lines[i];
      if line.Invalid? {
        return Err(InvalidUtf8);
      }
      MessagesSnoc(codec, lines, i);
      var trimmed := Trim(line.text);
      if trimmed == [] {
        continue;
      }
      match codec.parse(trimmed)
      case Some(v) => messages := messages + [v];
      case None =>
    }
    assert lines[..|lines|] == lines;
    r := Ok(messages);
  }

  class FileSystem {
    var files: map<Path, seq<Line>>
    var failing: set<Path>

    constructor(files: map<Path, seq<Line>>, failing: set<Path>)
      ensures this.files == files && this.failing == failing
    {
      this.files := files;
      this.failing := failing;
    }
  }

  class SessionStore {
    const baseDir: Path
    const fs: FileSystem
    const codec: Codec

    constructor(baseDir: Path, fs: FileSystem, codec: Codec)
      ensures this.baseDir == baseDir && this.fs == fs && this.codec == codec
    {
      this.baseDir := baseDir;
      this.fs := fs;
      this.codec := codec;
    }

    /** The lines of the file at `path`, none when it does not exist. */
    function FileLines(path: Path): seq<Line>
      reads fs
    {
      if path in fs.files then fs.files[path] else []
    }

    /** append: the message serialized as one more line at the end of the
        key's file, which is created when missing. */
    method Append(key: string, message: Value) returns (r: Result<(), StoreError>)
      modifies fs
      ensures var path := PathFor(baseDir, key);
        r == (if path in fs.failing then Err(OpenFailed) else Ok(()))
      ensures var path := PathFor(baseDir, key);
        fs.files == if r.Err? then old(fs.files) else old(fs.files)[path := old(FileLines(path)) + [TextLine(codec.serialize(message))]]
      ensures fs.failing == old(fs.failing)
    {
      var path := PathFor(baseDir, key);
      var line := codec.serialize(message);
      if path in fs.failing {
        return Err(OpenFailed);
      }
      var lines := FileLines(path);
      fs.files := fs.files[path := lines + [TextLine(line)]];
      r := Ok(());
    }

    /** read: every parsed message of the key's file, in order; blank and
        malformed lines are skipped, a line that is not UTF-8 fails the read. */
    method Read(key: string) returns (r: Result<seq<Value>, StoreError>)
      ensures r == ReadOutcome(codec, fs.files, fs.failing, PathFor(baseDir, key))
    {
      var path := PathFor(baseDir, key);
      if path !in fs.files {
        return Ok([]);
      }
      if path in fs.failing {
        return Err(OpenFailed);
      }
      r := ReadLines(codec, fs.files[path]);
    }

    /** read_last_n: the last min(n, all) messages that `read` would return, in order. */
    method ReadLastN(key: string, n: nat) returns (r: Result<seq<Value>, StoreError>)
      ensures r.Err? <==> ReadOutcome(codec, fs.files, fs.failing, PathFor(baseDir, key)).Err?
      ensures r.Err? ==> r == ReadOutcome(codec, fs.files, fs.failing, PathFor(baseDir, key))
      ensures r.Ok? ==> r.value == LastN(ReadOutcome(codec, fs.files, fs.failing, PathFor(baseDir, key)).value, n)
    {
      var path := PathFor(baseDir, key);
      if path !in fs.files {
        return Ok([]);
      }
      if path in fs.failing {
        return Err(OpenFailed);
      }
      var all := ReadLines(codec, fs.files[path]);
      if all.Err? {
        return all;
      }
      var start := if |all.value| >= n then |all.value| - n else 0;
      r := Ok(all.value[start..]);
    }

    /** The key's file exists but cannot be removed. */
    predicate CannotClear(key: string)
      reads fs
    {
      PathFor(baseDir, key) in fs.files && PathFor(baseDir, key) in fs.failing
    }

    /** clear: the key's file is removed; a missing file is not an error. */
    method Clear(key: string) returns (r: Result<(), StoreError>)
      modifies fs
      ensures r == if old(CannotClear(key)) then Err(RemoveFailed) else Ok(())
      ensures fs.files == if r.Ok? then old(fs.files) - {PathFor(baseDir, key)} else old(fs.files)
      ensures fs.failing == old(fs.failing)
      ensures r.Err? ==> unchanged(fs)
    {
      var path := PathFor(baseDir, key);
      if path in fs.files {
        if path in fs.failing {
          return Err(RemoveFailed);
        }
        fs.files := fs.files - {path};
      }
      r := Ok(());
    }

    /** count: how many lines are valid text and not blank, unparsed, as a u32. */
    method Count(key: string) returns (r: Result<nat, StoreError>)
      ensures r == CountOutcome(fs.files, fs.failing, PathFor(baseDir, key))
    {
      var path := PathFor(baseDir, key);
      if path !in fs.files {
        return Ok(0);
      }
      if path in fs.failing {
        return Err(OpenFailed);
      }
      var lines := fs.files[path];
      var count := 0;
      for i := 0 to |lines|
        invariant count == NonBlankCount(lines[..i])
      {
        NonBlankSnoc(lines, i);
        var line := lines[i];
        if line.TextLine? && Trim(line.text) != [] {
          count := count + 1;
        }
      }
      assert lines[..|lines|] == lines;
      r := Ok(count % U32_LIMIT);
    }
  }

  // ---------------------------------------------------------------------
  // Properties of the store

  /** After a successful clear, reading the key gives nothing and counting it gives 0. */
  lemma ReadAfterClear(codec: Codec, files: map<Path, seq<Line>>, failing: set<Path>, path: Path)
    ensures ReadOutcome(codec, files - {path}, failing, path) == Ok([])
    ensures CountOutcome(files - {path}, failing, path) == Ok(0)
  {
  }

  /** After a successful append, reading gives the earlier messages and then the new one. */
  lemma ReadAfterAppend(codec: Codec, files: map<Path, seq<Line>>, failing: set<Path>, path: Path, v: Value)
    requires Sound(codec) && path !in failing
    requires path in files ==> AllText(files[path])
    ensures var lines := if path in files then files[path] else [];
      var after := files[path := lines + [TextLine(codec.serialize(v))]];
      ReadOutcome(codec, after, failing, path) == Ok(ReadOutcome(codec, files, failing, path).value + [v])
  {
    var lines := if path in files then files[path] else [];
    AppendReadsBack(codec, lines, v);
    var more := lines + [TextLine(codec.serialize(v))];
    assert AllText(more) by {
      forall i | 0 <= i < |more| ensures more[i].TextLine? {
        if i < |lines| { assert more[i] == lines[i]; }
      }
    }
  }

  /** The count of a readable file is at least the number of messages read. */
  lemma CountAtLeastRead(codec: Codec, files: map<Path, seq<Line>>, failing: set<Path>, path: Path)
    requires path in files ==> NonBlankCount(files[path]) < U32_LIMIT
    requires ReadOutcome(codec, files, failing, path).Ok?
    ensures CountOutcome(files, failing, path).Ok?
    ensures CountOutcome(files, failing, path).value >= |ReadOutcome(codec, files, failing, path).value|
  {
    if path in files {
      CountCoversMessages(codec, files[path]);
    }
  }

  /** The store's own test, with a sound codec: two messages appended to an
      empty store read back in order, count 2, and are gone after clear. */
  method AppendReadClearScenario(codec: Codec, first: Value, second: Value)
      returns (read: Result<seq<Value>, StoreError>, count: Result<nat, StoreError>, cleared: Result<seq<Value>, StoreError>)
    requires Sound(codec)
    ensures read == Ok([first, second])
    ensures count == Ok(2)
    ensures cleared == Ok([])
  {
    var fs := new FileSystem(map[], {});
    var store := new SessionStore("/sessions", fs, codec);
    var _ := store.Append("main", first);
    var _ := store.Append("main", second);
    read := store.Read("main");
    WrittenReadsBack(codec, [first, second]);
    WrittenCount(codec, [first, second]);
    assert fs.files[PathFor("/sessions", "main")] == Serialized(codec, [first, second]);
    count := store.Count("main");
    var _ := store.Clear("main");
    cleared := store.Read("main");
  }
}
