/**
 * The gateway's live session service (LiveSessionService): the RPC handlers
 * `preview`, `resolve`, `patch`, `reset`, `delete` and `compact`, over the
 * JSONL session store and the session metadata index.
 *
 * The metadata index is kept abstract.  Only what the handlers rely on is
 * fixed: `get` finds an entry by key, `upsert` leaves the key present,
 * `remove` deletes it, and `save` either succeeds or reports an error text.
 * What an upserted or touched entry holds comes from `MetaRules`, and every
 * mutating call is written to `calls` so that the order of the handlers'
 * calls can be stated.
 */
module GatewaySession {
  import opened Wrappers
  import opened Json
  import opened Sessions

  /** A session's metadata (SessionEntry). */
  datatype Entry = Entry(
    id: string,
    key: string,
    sessionLabel: Option<string>,
    createdAt: nat,
    updatedAt: nat,
    messageCount: nat)

  /** The mutating calls a handler makes on the metadata index. */
  datatype MetaCall =
    | Upserted(key: string, newLabel: Option<string>)
    | Touched(key: string, count: nat)
    | Removed(key: string)
    | Saved

  /** What `upsert` and `touch` make of an entry; the index's own code is not part of this model. */
  datatype MetaRules = MetaRules(
    upsert: (string, Option<string>, Option<Entry>) -> Entry,
    touch: (Entry, nat) -> Entry)

  const MISSING_KEY: string := "missing 'key' parameter"
  const CANNOT_DELETE_MAIN: string := "cannot delete the main session"
  const MAIN: string := "main"
  const DEFAULT_PREVIEW_LIMIT: nat := 5

  function NotFound(key: string): string {
    "session '" + key + "' not found"
  }

  /** The entries after `touch(key, count)`: a known key is re-stamped, the others are left alone. */
  function TouchEntries(rules: MetaRules, entries: map<string, Entry>, key: string, count: nat): (r: map<string, Entry>)
    ensures r.Keys == entries.Keys
    ensures forall k :: k in entries && k != key ==> r[k] == entries[k]
  {
    if key in entries then entries[key := rules.touch(entries[key], count)] else entries
  }

  class Metadata {
    const rules: MetaRules
    /** The error `save` reports, None when the index can be written. */
    const saveError: Option<string>
    var entries: map<string, Entry>
    var calls: seq<MetaCall>

    constructor(rules: MetaRules, saveError: Option<string>, entries: map<string, Entry>)
      ensures this.rules == rules && this.saveError == saveError
      ensures this.entries == entries && calls == []
    {
      this.rules := rules;
      this.saveError := saveError;
      this.entries := entries;
      calls := [];
    }

    function Get(key: string): (r: Option<Entry>)
      reads this
      ensures r.Some? <==> key in entries
      ensures r.Some? ==> r.value == entries[key]
    {
      if key in entries then Some(entries[key]) else None
    }

    method Upsert(key: string, newLabel: Option<string>)
      modifies this
      ensures entries == old(entries)[key := rules.upsert(key, newLabel, old(Get(key)))]
      ensures calls == old(calls) + [Upserted(key, newLabel)]
    {
      entries := entries[key := rules.upsert(key, newLabel, Get(key))];
      calls := calls + [Upserted(key, newLabel)];
    }

    method Touch(key: string, count: nat)
      modifies this
      ensures entries == TouchEntries(rules, old(entries), key, count)
      ensures calls == old(calls) + [Touched(key, count)]
    {
      entries := TouchEntries(rules, entries, key, count);
      calls := calls + [Touched(key, count)];
    }

    method Remove(key: string)
      modifies this
      ensures entries == old(entries) - {key}
      ensures calls == old(calls) + [Removed(key)]
    {
      entries := entries - {key};
      calls := calls + [Removed(key)];
    }

    method Save() returns (r: Result<(), string>)
      modifies this
      ensures r == if saveError.Some? then Err(saveError.value) else Ok(())
      ensures entries == old(entries)
      ensures calls == old(calls) + [Saved]
    {
      calls := calls + [Saved];
      r := if saveError.Some? then Err(saveError.value) else Ok(());
    }
  }

  /** `params.get("key").and_then(as_str)`. */
  function KeyParam(params: Value): (r: Option<string>)
    ensures r.Some? <==> params.Object? && "key" in params.fields && params.fields["key"].Str?
    ensures r.Some? ==> r.value == params.fields["key"].s
  {
    match Get(params, "key")
    case None => None
    case Some(v) => AsStr(v)
  }

  /** `params.get("label").and_then(as_str)`. */
  function LabelParam(params: Value): (r: Option<string>)
    ensures r.Some? <==> params.Object? && "label" in params.fields && params.fields["label"].Str?
    ensures r.Some? ==> r.value == params.fields["label"].s
  {
    match Get(params, "label")
    case None => None
    case Some(v) => AsStr(v)
  }

  /** The `limit` parameter is an unsigned 64-bit number. */
  predicate LimitGiven(params: Value) {
    && params.Object? && "limit" in params.fields
    && params.fields["limit"].Number? && 0 <= params.fields["limit"].n < U64_LIMIT
  }

  /** The preview limit: the `limit` parameter when it is an unsigned 64-bit
      number, 5 when it is absent or anything else. */
  function LimitParam(params: Value): (limit: nat)
    ensures LimitGiven(params) ==> limit == params.fields["limit"].n
    ensures !LimitGiven(params) ==> limit == DEFAULT_PREVIEW_LIMIT
  {
    match Get(params, "limit")
    case None => DEFAULT_PREVIEW_LIMIT
    case Some(v) => if AsU64(v).Some? then AsU64(v).value else DEFAULT_PREVIEW_LIMIT
  }

  /** The JSON an entry is reported as. */
  function EntryJson(e: Entry): Value {
    Object(map[
      "id" := Str(e.id),
      "key" := Str(e.key),
      "label" := OptStr(e.sessionLabel),
      "createdAt" := Number(e.createdAt),
      "updatedAt" := Number(e.updatedAt),
      "messageCount" := Number(e.messageCount)])
  }

  /** The JSON `patch` reports: id, key and label only. */
  function PatchedJson(e: Entry): Value {
    Object(map["id" := Str(e.id), "key" := Str(e.key), "label" := OptStr(e.sessionLabel)])
  }

  const EMPTY_OBJECT: Value := Object(map[])

  /** A handler's answer once the index is saved: the save error, or its reply. */
  function SaveReply(saveError: Option<string>, reply: Value): Result<Value, string> {
    if saveError.Some? then Err(saveError.value) else Ok(reply)
  }

  class LiveSessionService {
    const store: SessionStore
    const metadata: Metadata

    constructor(store: SessionStore, metadata: Metadata)
      ensures this.store == store && this.metadata == metadata
    {
      this.store := store;
      this.metadata := metadata;
    }

    /** What reading the key's file would give. */
    function History(key: string): Result<seq<Value>, StoreError>
      reads store.fs
    {
      ReadOutcome(store.codec, store.fs.files, store.fs.failing, PathFor(store.baseDir, key))
    }

    /** preview: the key's last `limit` messages (5 by default) as
        `{"messages": [...]}`; a store error is reported by its text. */
    method Preview(params: Value) returns (r: Result<Value, string>)
      ensures KeyParam(params).None? ==> r == Err(MISSING_KEY)
      ensures KeyParam(params).Some? && History(KeyParam(params).value).Err? ==>
        r == Err(ErrorMessage(History(KeyParam(params).value).error))
      ensures KeyParam(params).Some? && History(KeyParam(params).value).Ok? ==>
        r == Ok(Object(map["messages" := Array(LastN(History(KeyParam(params).value).value, LimitParam(params)))]))
    {
      var key := KeyParam(params);
      if key.None? {
        return Err(MISSING_KEY);
      }
      var limit := LimitParam(params);
      var messages := store.ReadLastN(key.value, limit);
      match messages
      case Err(e) => r := Err(ErrorMessage(e));
      case Ok(ms) => r := Ok(Object(map["messages" := Array(ms)]));
    }

    /** resolve: the key's entry and full history; a key without metadata is
        "not found" whatever the store holds, as the store is not read. */
    method Resolve(params: Value) returns (r: Result<Value, string>)
      ensures KeyParam(params).None? ==> r == Err(MISSING_KEY)
      ensures KeyParam(params).Some? && KeyParam(params).value !in metadata.entries ==>
        r == Err(NotFound(KeyParam(params).value))
      ensures KeyParam(params).Some? && KeyParam(params).value in metadata.entries ==>
        var key := KeyParam(params).value;
        r == match History(key)
             case Err(e) => Err(ErrorMessage(e))
             case Ok(h) => Ok(Object(map["entry" := EntryJson(metadata.entries[key]), "history" := Array(h)]))
    {
      var key := KeyParam(params);
      if key.None? {
        return Err(MISSING_KEY);
      }
      var entry := metadata.Get(key.value);
      if entry.None? {
        return Err(NotFound(key.value));
      }
      var history := store.Read(key.value);
      match history
      case Err(e) => r := Err(ErrorMessage(e));
      case Ok(h) => r := Ok(Object(map["entry" := EntryJson(entry.value), "history" := Array(h)]));
    }

    /** patch: relabel a known session, save the index, report id, key and
        label; an unknown key is "not found" and nothing is upserted or saved. */
    method Patch(params: Value) returns (r: Result<Value, string>)
      modifies metadata
      ensures KeyParam(params).None? ==> r == Err(MISSING_KEY) && unchanged(metadata)
      ensures KeyParam(params).Some? && KeyParam(params).value !in old(metadata.entries) ==>
        r == Err(NotFound(KeyParam(params).value)) && unchanged(metadata)
      ensures KeyParam(params).Some? && KeyParam(params).value in old(metadata.entries) ==>
        var key := KeyParam(params).value;
        var newLabel := LabelParam(params);
        var updated := metadata.rules.upsert(key, newLabel, Some(old(metadata.entries)[key]));
        && metadata.entries == old(metadata.entries)[key := updated]
        && metadata.calls == old(metadata.calls) + [Upserted(key, newLabel), Saved]
        && r == SaveReply(metadata.saveError, PatchedJson(updated))
    {
      var key := KeyParam(params);
      if key.None? {
        return Err(MISSING_KEY);
      }
      var newLabel := LabelParam(params);
      if metadata.Get(key.value).None? {
        return Err(NotFound(key.value));
      }
      metadata.Upsert(key.value, newLabel);
      var saved := metadata.Save();
      if saved.Err? {
        return Err(saved.error);
      }
      var entry := metadata.Get(key.value);
      r := Ok(PatchedJson(entry.value));
    }

    /** reset: remove the key's file, then `touch(key, 0)` and save; when the
        file cannot be removed the index is left alone. */
    method Reset(params: Value) returns (r: Result<Value, string>)
      modifies store.fs, metadata
      ensures KeyParam(params).None? ==> r == Err(MISSING_KEY) && unchanged(store.fs) && unchanged(metadata)
      ensures KeyParam(params).Some? && old(store.CannotClear(KeyParam(params).value)) ==>
        r == Err(ErrorMessage(RemoveFailed)) && unchanged(store.fs) && unchanged(metadata)
      ensures KeyParam(params).Some? && !old(store.CannotClear(KeyParam(params).value)) ==>
        && store.fs.files == old(store.fs.files) - {PathFor(store.baseDir, KeyParam(params).value)}
        && store.fs.failing == old(store.fs.failing)
        && metadata.entries == TouchEntries(metadata.rules, old(metadata.entries), KeyParam(params).value, 0)
        && metadata.calls == old(metadata.calls) + [Touched(KeyParam(params).value, 0), Saved]
        && r == SaveReply(metadata.saveError, EMPTY_OBJECT)
    {
      var key := KeyParam(params);
      if key.None? {
        return Err(MISSING_KEY);
      }
      r := ResetKey(key.value);
    }

    /** reset, once the key is known. */
    method ResetKey(key: string) returns (r: Result<Value, string>)
      modifies store.fs, metadata
      ensures old(store.CannotClear(key)) ==>
        r == Err(ErrorMessage(RemoveFailed)) && unchanged(store.fs) && unchanged(metadata)
      ensures !old(store.CannotClear(key)) ==>
        && store.fs.files == old(store.fs.files) - {PathFor(store.baseDir, key)}
        && store.fs.failing == old(store.fs.failing)
        && metadata.entries == TouchEntries(metadata.rules, old(metadata.entries), key, 0)
        && metadata.calls == old(metadata.calls) + [Touched(key, 0), Saved]
        && r == SaveReply(metadata.saveError, EMPTY_OBJECT)
    {
      var cleared := store.Clear(key);
      if cleared.Err? {
        return Err(ErrorMessage(cleared.error));
      }
      metadata.Touch(key, 0);
      var saved := metadata.Save();
      if saved.Err? {
        return Err(saved.error);
      }
      r := Ok(EMPTY_OBJECT);
    }

    /** delete: the main session is refused before anything is touched;
        otherwise remove the key's file, then its entry, and save. */
    method Delete(params: Value) returns (r: Result<Value, string>)
      modifies store.fs, metadata
      ensures KeyParam(params).None? ==> r == Err(MISSING_KEY) && unchanged(store.fs) && unchanged(metadata)
      ensures KeyParam(params) == Some(MAIN) ==>
        r == Err(CANNOT_DELETE_MAIN) && unchanged(store.fs) && unchanged(metadata)
      ensures KeyParam(params).Some? && KeyParam(params).value != MAIN && old(store.CannotClear(KeyParam(params).value)) ==>
        r == Err(ErrorMessage(RemoveFailed)) && unchanged(store.fs) && unchanged(metadata)
      ensures KeyParam(params).Some? && KeyParam(params).value != MAIN && !old(store.CannotClear(KeyParam(params).value)) ==>
        && store.fs.files == old(store.fs.files) - {PathFor(store.baseDir, KeyParam(params).value)}
        && store.fs.failing == old(store.fs.failing)
        && metadata.entries == old(metadata.entries) - {KeyParam(params).value}
        && metadata.calls == old(metadata.calls) + [Removed(KeyParam(params).value), Saved]
        && r == SaveReply(metadata.saveError, EMPTY_OBJECT)
    {
      var key := KeyParam(params);
      if key.None? {
        return Err(MISSING_KEY);
      }
      if key.value == MAIN {
        return Err(CANNOT_DELETE_MAIN);
      }
      r := DeleteKey(key.value);
    }

    /** delete, once the key is known not to be the main session's. */
    method DeleteKey(key: string) returns (r: Result<Value, string>)
      modifies store.fs, metadata
      ensures old(store.CannotClear(key)) ==>
        r == Err(ErrorMessage(RemoveFailed)) && unchanged(store.fs) && unchanged(metadata)
      ensures !old(store.CannotClear(key)) ==>
        && store.fs.files == old(store.fs.files) - {PathFor(store.baseDir, key)}
        && store.fs.failing == old(store.fs.failing)
        && metadata.entries == old(metadata.entries) - {key}
        && metadata.calls == old(metadata.calls) + [Removed(key), Saved]
        && r == SaveReply(metadata.saveError, EMPTY_OBJECT)
    {
      var cleared := store.Clear(key);
      if cleared.Err? {
        return Err(ErrorMessage(cleared.error));
      }
      metadata.Remove(key);
      var saved := metadata.Save();
      if saved.Err? {
        return Err(saved.error);
      }
      r := Ok(EMPTY_OBJECT);
    }

    /** compact: not implemented; it accepts anything and answers `{}`. */
    method Compact(params: Value) returns (r: Result<Value, string>)
      ensures r == Ok(EMPTY_OBJECT)
    {
      r := Ok(EMPTY_OBJECT);
    }
  }

  /** A reset session previews as empty, whatever its file held. */
  method ResetThenPreview(codec: Codec, rules: MetaRules, baseDir: Path, files: map<Path, seq<Line>>,
                          entries: map<string, Entry>, params: Value)
      returns (reset: Result<Value, string>, preview: Result<Value, string>)
    requires KeyParam(params).Some?
    ensures reset == Ok(EMPTY_OBJECT)
    ensures preview == Ok(Object(map["messages" := Array([])]))
  {
    var fs := new FileSystem(files, {});
    var store := new SessionStore(baseDir, fs, codec);
    var metadata := new Metadata(rules, None, entries);
    var service := new LiveSessionService(store, metadata);
    reset := service.Reset(params);
    preview := service.Preview(params);
  }

  /** A deleted session is no longer found, and its history is gone; the
      main session survives a delete. */
  method DeleteThenResolve(codec: Codec, rules: MetaRules, baseDir: Path, files: map<Path, seq<Line>>,
                           entries: map<string, Entry>, params: Value)
      returns (deleted: Result<Value, string>, resolved: Result<Value, string>)
    requires KeyParam(params).Some?
    ensures KeyParam(params).value != MAIN ==>
      deleted == Ok(EMPTY_OBJECT) && resolved == Err(NotFound(KeyParam(params).value))
    ensures KeyParam(params).value == MAIN ==>
      && deleted == Err(CANNOT_DELETE_MAIN)
      && resolved == (if MAIN in entries
                      then match ReadOutcome(codec, files, {}, PathFor(baseDir, MAIN))
                           case Err(e) => Err(ErrorMessage(e))
                           case Ok(h) => Ok(Object(map["entry" := EntryJson(entries[MAIN]), "history" := Array(h)]))
                      else Err(NotFound(MAIN)))
  {
    var fs := new FileSystem(files, {});
    var store := new SessionStore(baseDir, fs, codec);
    var metadata := new Metadata(rules, None, entries);
    var service := new LiveSessionService(store, metadata);
    deleted := service.Delete(params);
    resolved := service.Resolve(params);
  }
}
