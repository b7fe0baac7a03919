/** The bookmark database (`BookmarkDB`): a JSON document kept in one file and
    addressed by dotted keys, `a.b.c` naming the value at field `c` of field
    `b` of field `a`. Every operation loads the whole document; `push`,
    `delete` and `clear` write it back. */
module BookmarkStore {
  import opened Common

  /** A JSON value: an object with named fields, or any other value. Values
      that are not objects have no fields in this model. */
  datatype Json = Obj(fields: map<string, Json>) | Leaf(value: string)

  /** `{}` */
  const EmptyObject: Json := Obj(map[])

  /** What is found at the database file's path. */
  datatype FileState =
    | NoFile              // nothing at the path
    | NotRegular          // something that is not a regular file (a directory, say)
    | Unparsable          // a regular file whose content cannot be read or parsed as JSON
    | Stored(doc: Json)   // a regular file holding a JSON document

  /** Result of an operation that may write the file. */
  datatype Status =
    | Done         // completed
    | TypeError    // a field was assigned on a value that is not an object (strict mode)
    | WriteFailed  // the file could not be written

  // ---------------------------------------------------------------------------
  // Keys

  /** `key.split('.')`: the segments between the dots, always at least one. */
  function Split(key: string): (parts: seq<string>)
    ensures |parts| >= 1
    ensures forall k :: 0 <= k < |parts| ==> '.' !in parts[k]
  {
    if key == [] then [""]
    else if key[0] == '.' then [""] + Split(key[1..])
    else
      var rest := Split(key[1..]);
      [[key[0]] + rest[0]] + rest[1..]
  }

  /** `parts.join('.')`. */
  function Join(parts: seq<string>): string
    requires |parts| >= 1
  {
    if |parts| == 1 then parts[0] else parts[0] + "." + Join(parts[1..])
  }

  /** Splitting loses nothing: joining the segments gives the key back. */
  lemma {:induction false} JoinSplit(key: string)
    ensures Join(Split(key)) == key
  {
    if key != [] {
      JoinSplit(key[1..]);
      var rest := Split(key[1..]);
      if key[0] == '.' {
        assert key == "." + key[1..];
      } else if |rest| == 1 {
        assert key == [key[0]] + key[1..];
      } else {
        assert Split(key)[1..] == rest[1..];
        assert key == [key[0]] + key[1..];
      }
    }
  }

  /** The segments of a key are determined by it: splitting a join of
      dot-free segments gives those segments back. */
  lemma {:induction false} SplitJoin(parts: seq<string>)
    requires |parts| >= 1
    requires forall k :: 0 <= k < |parts| ==> '.' !in parts[k]
    ensures Split(Join(parts)) == parts
  {
    if |parts| == 1 {
      SplitWord(parts[0], []);
      assert parts[0] + [] == parts[0];
    } else {
      SplitJoin(parts[1..]);
      var tail := "." + Join(parts[1..]);
      SplitWord(parts[0], tail);
      assert tail[1..] == Join(parts[1..]);
      assert Split(tail) == [""] + parts[1..];
      assert Join(parts) == parts[0] + tail;
      assert parts[0] + "" == parts[0];
      assert parts == [parts[0]] + parts[1..];
    }
  }

  /** A dot-free prefix becomes part of the first segment. */
  lemma {:induction false} SplitWord(w: string, tail: string)
    requires '.' !in w
    requires tail == [] || tail[0] == '.'
    ensures Split(w + tail) == [w + Split(tail)[0]] + Split(tail)[1..]
  {
    if w != [] {
      SplitWord(w[1..], tail);
      var s := Split(tail);
      var rest := Split(w[1..] + tail);
      assert (w + tail)[1..] == w[1..] + tail;
      assert (w + tail)[0] == w[0] && w[0] in w;
      assert rest[0] == w[1..] + s[0] && rest[1..] == s[1..];
      assert [w[0]] + (w[1..] + s[0]) == w + s[0];
    } else {
      assert w + tail == tail;
      var s := Split(tail);
      assert [] + s[0] == s[0];
      assert s == [s[0]] + s[1..];
    }
  }

  // ---------------------------------------------------------------------------
  // Paths through a document

  /** `obj[part]` when it is defined: the field of an object. */
  function Child(j: Json, part: string): (r: Option<Json>)
    ensures r.Some? <==> j.Obj? && part in j.fields
  {
    if j.Obj? && part in j.fields then Some(j.fields[part]) else None
  }

  /** The value at `path`, or `None` as soon as a segment is missing. */
  function Lookup(doc: Json, path: seq<string>): Option<Json>
    decreases path
  {
    if path == [] then Some(doc)
    else match Child(doc, path[0])
      case None => None
      case Some(c) => Lookup(c, path[1..])
  }

  /** Looking up one more segment takes one more step from where the shorter
      path led. */
  lemma {:induction false} LookupSnoc(doc: Json, path: seq<string>, part: string)
    ensures Lookup(doc, path + [part]) == match Lookup(doc, path)
                                           case None => None
                                           case Some(j) => Child(j, part)
    decreases path
  {
    if path != [] {
      assert (path + [part])[1..] == path[1..] + [part];
      if Child(doc, path[0]).Some? {
        LookupSnoc(Child(doc, path[0]).value, path[1..], part);
      }
    }
  }

  /** Once a prefix of a path is missing, so is the whole path. */
  lemma {:induction false} LookupMissingPrefix(doc: Json, path: seq<string>, k: nat)
    requires k <= |path|
    requires Lookup(doc, path[..k]) == None
    ensures Lookup(doc, path) == None
    decreases k
  {
    if k > 0 && Child(doc, path[0]).Some? {
      assert path[..k][1..] == path[1..][..k - 1];
      LookupMissingPrefix(Child(doc, path[0]).value, path[1..], k - 1);
    }
  }

  /** The field `part` of object fields `m`, or a fresh `{}` when it is missing. */
  function FieldOrEmpty(m: map<string, Json>, part: string): Json
  {
    if part in m then m[part] else EmptyObject
  }

  /** Where `push` has got to after following `path`, creating each missing
      field as `{}`; `None` once it has had to index a value that is not an
      object. */
  function Descend(doc: Json, path: seq<string>): Option<Json>
    decreases path
  {
    if path == [] then Some(doc)
    else if doc.Leaf? then None
    else Descend(FieldOrEmpty(doc.fields, path[0]), path[1..])
  }

  lemma {:induction false} DescendSnoc(doc: Json, path: seq<string>, part: string)
    ensures Descend(doc, path + [part]) == match Descend(doc, path)
                                            case Some(Obj(m)) => Some(FieldOrEmpty(m, part))
                                            case _ => None
    decreases path
  {
    if path != [] {
      assert (path + [part])[1..] == path[1..] + [part];
      if doc.Obj? {
        DescendSnoc(FieldOrEmpty(doc.fields, path[0]), path[1..], part);
      }
    }
  }

  /** The document after `obj[last] = data` at the end of `path`: every
      missing field on the way is created as `{}`. `None` when some value on the
      way is not an object, where the assignment throws a `TypeError`. */
  function Store(doc: Json, path: seq<string>, data: Json): Option<Json>
    requires path != []
    decreases path
  {
    if doc.Leaf? then None
    else if |path| == 1 then Some(Obj(doc.fields[path[0] := data]))
    else match Store(FieldOrEmpty(doc.fields, path[0]), path[1..], data)
      case None => None
      case Some(c) => Some(Obj(doc.fields[path[0] := c]))
  }

  /** The document after `delete obj[last]` at the end of `path`; `None` when
      some segment is missing, in which case nothing is deleted. */
  function Remove(doc: Json, path: seq<string>): Option<Json>
    requires path != []
    decreases path
  {
    if Child(doc, path[0]).None? then None
    else if |path| == 1 then Some(Obj(doc.fields - {path[0]}))
    else match Remove(doc.fields[path[0]], path[1..])
      case None => None
      case Some(c) => Some(Obj(doc.fields[path[0] := c]))
  }

  /** `p` and `q` part ways at segment `i`: neither is a prefix of the other. */
  ghost predicate DivergeAt(p: seq<string>, q: seq<string>, i: nat)
  {
    i < |p| && i < |q| && p[..i] == q[..i] && p[i] != q[i]
  }

  // ---------------------------------------------------------------------------
  // Properties of the path semantics

  /** After a successful store the path leads to the stored value. */
  lemma {:induction false} StoreThenLookup(doc: Json, path: seq<string>, data: Json)
    requires path != [] && Store(doc, path, data).Some?
    ensures Lookup(Store(doc, path, data).value, path) == Some(data)
    decreases path
  {
    if |path| > 1 {
      StoreThenLookup(FieldOrEmpty(doc.fields, path[0]), path[1..], data);
    }
  }

  /** A store fails exactly when some proper prefix of the path leads to a
      value that is not an object. */
  lemma {:induction false} StoreFailsOnLeaf(doc: Json, path: seq<string>, data: Json)
    requires path != []
    ensures Store(doc, path, data).None? <==>
            exists k :: 0 <= k < |path| && Lookup(doc, path[..k]).Some? && Lookup(doc, path[..k]).value.Leaf?
    decreases path
  {
    assert path[..0] == [];
    if doc.Obj? && |path| > 1 {
      var child := FieldOrEmpty(doc.fields, path[0]);
      StoreFailsOnLeaf(child, path[1..], data);
      if Store(doc, path, data).None? {
        var k :| 0 <= k < |path| - 1 && Lookup(child, path[1..][..k]).Some? && Lookup(child, path[1..][..k]).value.Leaf?;
        assert path[..k + 1][1..] == path[1..][..k];
        if k > 0 {
          assert path[0] in doc.fields;
        }
        assert Lookup(doc, path[..k + 1]) == Lookup(child, path[1..][..k]);
      } else {
        forall k | 0 <= k < |path| && Lookup(doc, path[..k]).Some?
          ensures !Lookup(doc, path[..k]).value.Leaf?
        {
          if k > 0 {
            assert path[..k][1..] == path[1..][..k - 1];
          }
        }
      }
    }
  }

  /** A store leaves every path that parts ways with the stored path as it was. */
  lemma {:induction false} StoreFrame(doc: Json, p: seq<string>, data: Json, q: seq<string>, i: nat)
    requires p != [] && Store(doc, p, data).Some?
    requires DivergeAt(p, q, i)
    ensures Lookup(Store(doc, p, data).value, q) == Lookup(doc, q)
    decreases i
  {
    if i > 0 {
      assert q[0] == p[0] by { assert p[..i][0] == q[..i][0]; }
      assert DivergeAt(p[1..], q[1..], i - 1) by {
        assert p[1..][..i - 1] == p[..i][1..] && q[1..][..i - 1] == q[..i][1..];
      }
      var child := FieldOrEmpty(doc.fields, p[0]);
      StoreFrame(child, p[1..], data, q[1..], i - 1);
      if p[0] !in doc.fields {
        LookupEmpty(q[1..]);
      }
    }
  }

  /** Nothing but the empty path is found in `{}`. */
  lemma LookupEmpty(q: seq<string>)
    requires q != []
    ensures Lookup(EmptyObject, q) == None
  {
  }

  /** Each missing field on the path is created as an object that holds only
      the next segment of the path. */
  lemma {:induction false} StoreCreatesIntermediates(doc: Json, path: seq<string>, data: Json, k: nat)
    requires path != [] && Store(doc, path, data).Some?
    requires 0 < k < |path| && Lookup(doc, path[..k]).None?
    ensures Lookup(Store(doc, path, data).value, path[..k]).Some?
    ensures Lookup(Store(doc, path, data).value, path[..k]).value.Obj?
    ensures Lookup(Store(doc, path, data).value, path[..k]).value.fields.Keys == {path[k]}
    decreases k
  {
    var child := FieldOrEmpty(doc.fields, path[0]);
    var c := Store(child, path[1..], data).value;
    assert path[..k][1..] == path[1..][..k - 1];
    assert Lookup(Store(doc, path, data).value, path[..k]) == Lookup(c, path[1..][..k - 1]);
    if k == 1 {
      assert path[0] !in doc.fields;
      assert child == EmptyObject;
      if |path| == 2 {
        assert c == Obj(map[path[1] := data]);
      } else {
        assert c.fields.Keys == {path[1]};
      }
    } else if path[0] in doc.fields {
      StoreCreatesIntermediates(child, path[1..], data, k - 1);
    } else {
      StoreIntoEmpty(path[1..], data, k - 1);
    }
  }

  /** Storing into `{}` builds a chain of single-field objects. */
  lemma {:induction false} StoreIntoEmpty(path: seq<string>, data: Json, k: nat)
    requires path != [] && k < |path|
    ensures Store(EmptyObject, path, data).Some?
    ensures Lookup(Store(EmptyObject, path, data).value, path[..k]).Some?
    ensures Lookup(Store(EmptyObject, path, data).value, path[..k]).value.Obj?
    ensures Lookup(Store(EmptyObject, path, data).value, path[..k]).value.fields.Keys == {path[k]}
  {
    if |path| > 1 {
      StoreIntoEmpty(path[1..], data, if k > 0 then k - 1 else 0);
      if k > 0 {
        assert path[..k][1..] == path[1..][..k - 1];
      }
    }
  }

  /** A delete succeeds exactly when the whole path is present. */
  lemma {:induction false} RemoveIffPresent(doc: Json, path: seq<string>)
    requires path != []
    ensures Remove(doc, path).Some? <==> Lookup(doc, path).Some?
    decreases path
  {
    if Child(doc, path[0]).Some? && |path| > 1 {
      RemoveIffPresent(doc.fields[path[0]], path[1..]);
    }
  }

  /** After a delete the path is gone, its parent object has lost exactly
      that field, and every path that parts ways with it is as it was. */
  lemma {:induction false} RemoveEffect(doc: Json, path: seq<string>)
    requires path != [] && Remove(doc, path).Some?
    ensures Lookup(Remove(doc, path).value, path) == None
    ensures Lookup(doc, path[..|path| - 1]).Some? && Lookup(doc, path[..|path| - 1]).value.Obj?
    ensures var parent := Lookup(Remove(doc, path).value, path[..|path| - 1]);
            parent.Some? && parent.value.Obj? &&
            parent.value.fields == Lookup(doc, path[..|path| - 1]).value.fields - {path[|path| - 1]}
    decreases path
  {
    if |path| > 1 {
      RemoveEffect(doc.fields[path[0]], path[1..]);
      assert path[..|path| - 1][1..] == path[1..][..|path[1..]| - 1];
    }
  }

  lemma {:induction false} RemoveFrame(doc: Json, p: seq<string>, q: seq<string>, i: nat)
    requires p != [] && Remove(doc, p).Some?
    requires DivergeAt(p, q, i)
    ensures Lookup(Remove(doc, p).value, q) == Lookup(doc, q)
    decreases i
  {
    if i > 0 {
      assert q[0] == p[0] by { assert p[..i][0] == q[..i][0]; }
      assert DivergeAt(p[1..], q[1..], i - 1) by {
        assert p[1..][..i - 1] == p[..i][1..] && q[1..][..i - 1] == q[..i][1..];
      }
      RemoveFrame(doc.fields[p[0]], p[1..], q[1..], i - 1);
    }
  }

  // ---------------------------------------------------------------------------
  // Loading

  /** What `load` returns: the stored document, or `{}` when the directory of
      the file is missing or the file cannot be read or parsed. */
  function Loaded(dirIsDirectory: bool, file: FileState): Json
  {
    if dirIsDirectory && file.Stored? then file.doc else EmptyObject
  }

  /** `load` never fails: anything but a readable document reads as `{}`. */
  lemma LoadedFallsBack(dirIsDirectory: bool, file: FileState)
    ensures !dirIsDirectory || !file.Stored? ==> Loaded(dirIsDirectory, file) == EmptyObject
    ensures dirIsDirectory && file.Stored? ==> Loaded(dirIsDirectory, file) == file.doc
  {
  }

  // ---------------------------------------------------------------------------
  // The database

  class BookmarkDB {
    /** The directory that holds the database file exists and is a directory. */
    var dirIsDirectory: bool
    /** What is at the database file's path. */
    var file: FileState
    /** Every document handed to `fsWriteFile`, in order. */
    var writes: seq<Json>

    /** Nothing can be at the path while its directory is missing. */
    ghost predicate Valid()
      reads this
    {
      !dirIsDirectory ==> file == NoFile
    }

    constructor (dirIsDirectory: bool, file: FileState)
      requires !dirIsDirectory ==> file == NoFile
      ensures Valid()
      ensures this.dirIsDirectory == dirIsDirectory && this.file == file && writes == []
    {
      this.dirIsDirectory := dirIsDirectory;
      this.file := file;
      writes := [];
    }

    /** The document `load` returns in the current state. */
    function Document(): Json
      reads this
    {
      Loaded(dirIsDirectory, file)
    }

    method Load() returns (doc: Json)
      ensures doc == Document()
    {
      if !dirIsDirectory {
        return EmptyObject;
      }
      match file
      case Stored(d) => doc := d;
      case _ => doc := EmptyObject;
    }

    /** `fsWriteFile`: fails when the directory is missing or the path is
        not a regular file; otherwise the file holds `doc` afterwards. */
    method WriteFile(doc: Json) returns (ok: bool)
      requires Valid()
      modifies this
      ensures Valid()
      ensures ok == (old(dirIsDirectory) && old(file) != NotRegular)
      ensures dirIsDirectory == old(dirIsDirectory)
      ensures file == if ok then Stored(doc) else old(file)
      ensures writes == old(writes) + [doc]
    {
      writes := writes + [doc];
      ok := dirIsDirectory && file != NotRegular;
      if ok {
        file := Stored(doc);
      }
    }

    /** `fetch(key)`: the whole document for the empty key, else the value at
        the key's path, `None` once a segment is missing. */
    method Fetch(key: string) returns (r: Option<Json>)
      ensures r == if key == "" then Some(Document()) else Lookup(Document(), Split(key))
    {
      var obj := Load();
      if key == "" {
        return Some(obj);
      }
      ghost var origin := obj;
      var parts := Split(key);
      var i := 0;
      while i < |parts|
        modifies {}
        invariant 0 <= i <= |parts|
        invariant Lookup(origin, parts[..i]) == Some(obj)
      {
        LookupSnoc(origin, parts[..i], parts[i]);
        assert parts[..i + 1] == parts[..i] + [parts[i]];
        var next := Child(obj, parts[i]);
        if next.None? {
          LookupMissingPrefix(origin, parts, i + 1);
          return None;
        }
        obj := next.value;
        i := i + 1;
      }
      assert parts[..i] == parts;
      return Some(obj);
    }

    /** `exists(key)`: whether every segment of the key's path is present; the
        empty key is the single segment `""`. */
    method Exists(key: string) returns (b: bool)
      ensures b == Lookup(Document(), Split(key)).Some?
    {
      var obj := Load();
      ghost var origin := obj;
      var parts := Split(key);
      var i := 0;
      while i < |parts|
        modifies {}
        invariant 0 <= i <= |parts|
        invariant Lookup(origin, parts[..i]) == Some(obj)
      {
        LookupSnoc(origin, parts[..i], parts[i]);
        assert parts[..i + 1] == parts[..i] + [parts[i]];
        var next := Child(obj, parts[i]);
        if next.None? {
          LookupMissingPrefix(origin, parts, i + 1);
          return false;
        }
        obj := next.value;
        i := i + 1;
      }
      assert parts[..i] == parts;
      return true;
    }

    /** `push(key, data)`: walks the key's path creating missing fields as
        `{}`, assigns `data` to the last segment and writes the document once.
        Indexing a value that is not an object throws before anything is
        written. */
    method Push(key: string, data: Json) returns (status: Status)
      requires Valid()
      modifies this
      ensures Valid()
      ensures var r := Store(old(Document()), Split(key), data);
              if r.None? then
                status == TypeError && unchanged(this)
              else
                && writes == old(writes) + [r.value]
                && dirIsDirectory == old(dirIsDirectory)
                && (status == Done <==> old(dirIsDirectory) && old(file) != NotRegular)
                && status != TypeError
                && file == (if status == Done then Stored(r.value) else old(file))
    {
      var origin := Load();
      var parts := Split(key);
      var len := |parts|;
      var obj := origin;
      var spine: seq<map<string, Json>> := [];
      var i := 0;
      assert parts[..0] == [];
      while i < len - 1
        modifies {}
        invariant 0 <= i <= len - 1
        invariant |spine| == i
        invariant Descend(origin, parts[..i]) == Some(obj)
        invariant forall j :: 0 <= j < i ==> Descend(origin, parts[..j]) == Some(Obj(spine[j]))
      {
        if obj.Leaf? {
          StoreThroughLeaf(origin, parts, data, i);
          return TypeError;
        }
        WalkStep(origin, parts, i, obj);
        spine := spine + [obj.fields];
        obj := FieldOrEmpty(obj.fields, parts[i]);
        i := i + 1;
      }
      if obj.Leaf? {
        StoreThroughLeaf(origin, parts, data, i);
        return TypeError;
      }
      var acc := Obj(obj.fields[parts[len - 1] := data]);
      assert parts[len - 1..] == [parts[len - 1]];
      var j := len - 1;
      while j > 0
        modifies {}
        invariant 0 <= j <= len - 1
        invariant Descend(origin, parts[..j]).Some?
        invariant Store(Descend(origin, parts[..j]).value, parts[j..], data) == Some(acc)
      {
        j := j - 1;
        RebuildStep(origin, parts, j, spine[j], acc, data);
        acc := Obj(spine[j][parts[j] := acc]);
      }
      assert parts[..0] == [] && parts[0..] == parts;
      var ok := WriteFile(acc);
      status := if ok then Done else WriteFailed;
    }

    /** `delete(key)`: when every segment of the key's path is present,
        removes the last one and writes the document once; otherwise does
        nothing. */
    method Delete(key: string) returns (status: Status)
      requires Valid()
      modifies this
      ensures Valid()
      ensures status != TypeError
      ensures Remove(old(Document()), Split(key)).None? ==> status == Done && unchanged(this)
      ensures Remove(old(Document()), Split(key)).Some? ==>
                && writes == old(writes) + [Remove(old(Document()), Split(key)).value]
                && dirIsDirectory == old(dirIsDirectory)
                && (status == Done <==> old(dirIsDirectory) && old(file) != NotRegular)
                && file == (if status == Done then Stored(Remove(old(Document()), Split(key)).value) else old(file))
    {
      var origin := Load();
      var parts := Split(key);
      var len := |parts|;
      var obj := origin;
      var spine: seq<map<string, Json>> := [];
      var i := 0;
      assert parts[..0] == [];
      while i < len - 1
        modifies {}
        invariant 0 <= i <= len - 1
        invariant |spine| == i
        invariant Lookup(origin, parts[..i]) == Some(obj)
        invariant forall j :: 0 <= j < i ==> Lookup(origin, parts[..j]) == Some(Obj(spine[j]))
      {
        LookupStep(origin, parts, i, obj);
        if Child(obj, parts[i]).None? {
          RemoveMissing(origin, parts, i + 1);
          return Done;
        }
        spine := spine + [obj.fields];
        obj := obj.fields[parts[i]];
        i := i + 1;
      }
      LookupStep(origin, parts, i, obj);
      if Child(obj, parts[len - 1]).None? {
        RemoveMissing(origin, parts, len);
        return Done;
      }
      var acc := Obj(obj.fields - {parts[len - 1]});
      RemoveLast(origin, parts, obj);
      var j := len - 1;
      while j > 0
        modifies {}
        invariant 0 <= j <= len - 1
        invariant Lookup(origin, parts[..j]).Some?
        invariant Remove(Lookup(origin, parts[..j]).value, parts[j..]) == Some(acc)
      {
        j := j - 1;
        RemoveStep(origin, parts, j, spine[j], acc);
        acc := Obj(spine[j][parts[j] := acc]);
      }
      assert parts[..0] == [] && parts[0..] == parts;
      assert Remove(origin, parts) == Some(acc);
      var ok := WriteFile(acc);
      status := if ok then Done else WriteFailed;
    }

    /** `clear()`: overwrites the file with `{}` when it is a regular file;
        otherwise does nothing. */
    method Clear()
      requires Valid()
      modifies this
      ensures Valid()
      ensures if old(file).Unparsable? || old(file).Stored? then
                file == Stored(EmptyObject) && writes == old(writes) + [EmptyObject]
                && dirIsDirectory == old(dirIsDirectory)
              else
                unchanged(this)
    {
      if file == NoFile || file == NotRegular {
        return;
      }
      var ok := WriteFile(EmptyObject);
    }
  }

  /** One step of `push`'s walk down the path. */
  lemma WalkStep(origin: Json, parts: seq<string>, i: nat, obj: Json)
    requires i < |parts| && obj.Obj? && Descend(origin, parts[..i]) == Some(obj)
    ensures Descend(origin, parts[..i + 1]) == Some(FieldOrEmpty(obj.fields, parts[i]))
  {
    DescendSnoc(origin, parts[..i], parts[i]);
    assert parts[..i + 1] == parts[..i] + [parts[i]];
  }

  /** One step of `push`'s rebuild: storing below a field of the parent object
      replaces that field. */
  lemma RebuildStep(origin: Json, parts: seq<string>, j: nat, parent: map<string, Json>, acc: Json, data: Json)
    requires j + 1 < |parts| && Descend(origin, parts[..j]) == Some(Obj(parent))
    requires Descend(origin, parts[..j + 1]).Some?
    requires Store(Descend(origin, parts[..j + 1]).value, parts[j + 1..], data) == Some(acc)
    ensures Store(Obj(parent), parts[j..], data) == Some(Obj(parent[parts[j] := acc]))
  {
    WalkStep(origin, parts, j, Obj(parent));
    assert parts[j..][1..] == parts[j + 1..];
  }

  /** Deleting below a missing prefix deletes nothing. */
  lemma RemoveMissing(doc: Json, path: seq<string>, k: nat)
    requires 0 < k <= |path| && Lookup(doc, path[..k]) == None
    ensures Remove(doc, path) == None
  {
    LookupMissingPrefix(doc, path, k);
    RemoveIffPresent(doc, path);
  }

  /** One step of `delete`'s walk down the path. */
  lemma LookupStep(origin: Json, parts: seq<string>, i: nat, obj: Json)
    requires i < |parts| && Lookup(origin, parts[..i]) == Some(obj)
    ensures Lookup(origin, parts[..i + 1]) == Child(obj, parts[i])
  {
    LookupSnoc(origin, parts[..i], parts[i]);
    assert parts[..i + 1] == parts[..i] + [parts[i]];
  }

  /** The last step of `delete`: the field is removed from the object the
      path's prefix leads to. */
  lemma RemoveLast(origin: Json, parts: seq<string>, obj: Json)
    requires |parts| >= 1 && Lookup(origin, parts[..|parts| - 1]) == Some(obj)
    requires Child(obj, parts[|parts| - 1]).Some?
    ensures Lookup(origin, parts[..|parts| - 1]).Some?
    ensures Remove(Lookup(origin, parts[..|parts| - 1]).value, parts[|parts| - 1..])
            == Some(Obj(obj.fields - {parts[|parts| - 1]}))
  {
    assert parts[|parts| - 1..] == [parts[|parts| - 1]];
  }

  /** One step of `delete`'s rebuild: the parent object gets the updated child. */
  lemma RemoveStep(origin: Json, parts: seq<string>, j: nat, parent: map<string, Json>, acc: Json)
    requires j + 1 < |parts| && Lookup(origin, parts[..j]) == Some(Obj(parent))
    requires Lookup(origin, parts[..j + 1]).Some?
    requires Remove(Lookup(origin, parts[..j + 1]).value, parts[j + 1..]) == Some(acc)
    ensures Remove(Obj(parent), parts[j..]) == Some(Obj(parent[parts[j] := acc]))
  {
    LookupStep(origin, parts, j, Obj(parent));
    assert parts[j..][1..] == parts[j + 1..];
  }

  /** Where `push` meets a value that is not an object before the last
      segment, the store fails. */
  lemma {:induction false} StoreThroughLeaf(doc: Json, path: seq<string>, data: Json, k: nat)
    requires k < |path|
    requires Descend(doc, path[..k]).Some? && Descend(doc, path[..k]).value.Leaf?
    ensures Store(doc, path, data) == None
    decreases k
  {
    if k > 0 {
      assert path[..k][1..] == path[1..][..k - 1];
      StoreThroughLeaf(FieldOrEmpty(doc.fields, path[0]), path[1..], data, k - 1);
    }
  }
}
