/**
 * What the Nest services read and write besides the manager session: a
 * MongoDB collection per entity, as far as the services query it, and the
 * Asterisk configuration directory.
 */
module Store {
  import opened Records

  /** The stored fields of each document, in natural order. */
  function RecordsOf<T>(items: seq<Entry<T>>): (rs: seq<T>)
    ensures |rs| == |items|
    ensures forall i :: 0 <= i < |items| ==> rs[i] == items[i].rec
  {
    if items == [] then [] else [items[0].rec] + RecordsOf(items[1..])
  }

  /**
   * A collection: its documents in natural order, which is the order a
   * `find()` without `sort` returns, and the next `_id` to hand out.
   */
  class Collection<T> {
    var items: seq<Entry<T>>
    var nextId: nat

    /** Ids are unique and all below the next one handed out. */
    predicate Valid()
      reads this
    {
      IdsUnique(items) && forall i :: 0 <= i < |items| ==> items[i].id < nextId
    }

    constructor()
      ensures Valid() && items == [] && nextId == 0
    {
      items := [];
      nextId := 0;
    }

    function Stored(): seq<T>
      reads this
    {
      RecordsOf(items)
    }

    /** `findById(id)`: the position of the document with that id, if any. */
    method FindById(id: nat) returns (r: Option<nat>)
      requires Valid()
      ensures r == Records.FindById(items, id)
    {
      var i := 0;
      while i < |items|
        invariant 0 <= i <= |items|
        invariant forall j :: 0 <= j < i ==> items[j].id != id
      {
        if items[i].id == id {
          FindByIdIs(items, id, i);
          return Some(i);
        }
        i := i + 1;
      }
      r := None;
    }

    /**
     * `findOne({<key>: k, _id: {$ne: except}})`: the first document other
     * than `except` whose natural key is `k`; without `except` any document.
     */
    method FindOne(key: T -> string, k: string, except: Option<nat>) returns (r: Option<nat>)
      ensures r == FindOneFrom(items, key, k, except, 0)
      ensures r.None? <==> !KeyHeldByOther(items, key, k, except)
    {
      FindOneHeld(items, key, k, except);
      var i := 0;
      while i < |items|
        invariant 0 <= i <= |items|
        invariant FindOneFrom(items, key, k, except, 0) == FindOneFrom(items, key, k, except, i)
      {
        if key(items[i].rec) == k && Some(items[i].id) != except {
          return Some(i);
        }
        i := i + 1;
      }
      r := None;
    }

    /** `new Model(dto).save()`: the document is appended under a fresh id. */
    method Insert(rec: T) returns (id: nat)
      requires Valid()
      modifies this
      ensures Valid()
      ensures id == old(nextId) && nextId == old(nextId) + 1
      ensures items == old(items) + [Entry(id, rec)]
    {
      id := nextId;
      items := items + [Entry(id, rec)];
      nextId := nextId + 1;
    }

    /** `findByIdAndUpdate` and `save` of a loaded document: its fields replaced in place. */
    method Replace(k: nat, rec: T)
      requires Valid() && k < |items|
      modifies this
      ensures Valid() && nextId == old(nextId)
      ensures items == old(items)[k := Entry(old(items)[k].id, rec)]
    {
      items := items[k := Entry(items[k].id, rec)];
    }

    /** `findByIdAndDelete`: the document leaves the collection. */
    method Delete(k: nat) returns (removed: Entry<T>)
      requires Valid() && k < |items|
      modifies this
      ensures Valid() && nextId == old(nextId)
      ensures removed == old(items)[k]
      ensures items == old(items)[..k] + old(items)[k + 1..]
    {
      removed := items[k];
      RemoveKeepsIds(items, k);
      items := items[..k] + items[k + 1..];
    }
  }

  /** Document `j` matches `findOne({<key>: k, _id: {$ne: except}})`. */
  predicate Matches<T>(items: seq<Entry<T>>, key: T -> string, k: string, except: Option<nat>, j: nat)
    requires j < |items|
  {
    key(items[j].rec) == k && Some(items[j].id) != except
  }

  /** The first matching document at or after position `from`. */
  function FindOneFrom<T>(items: seq<Entry<T>>, key: T -> string, k: string, except: Option<nat>, from: nat)
    : (r: Option<nat>)
    requires from <= |items|
    ensures r.Some? ==> from <= r.value < |items| && Matches(items, key, k, except, r.value)
    ensures r.Some? ==> forall j :: from <= j < r.value ==> !Matches(items, key, k, except, j)
    ensures r.None? ==> forall j :: from <= j < |items| ==> !Matches(items, key, k, except, j)
    decreases |items| - from
  {
    if from == |items| then None
    else if Matches(items, key, k, except, from) then Some(from)
    else FindOneFrom(items, key, k, except, from + 1)
  }

  /** `findOne` finds nothing exactly when no other document holds the key. */
  lemma FindOneHeld<T>(items: seq<Entry<T>>, key: T -> string, k: string, except: Option<nat>)
    ensures FindOneFrom(items, key, k, except, 0).None? <==> !KeyHeldByOther(items, key, k, except)
  {
    var r := FindOneFrom(items, key, k, except, 0);
    if r.Some? {
      assert Matches(items, key, k, except, r.value);
    } else {
      forall i | 0 <= i < |items| ensures !(key(items[i].rec) == k && Some(items[i].id) != except) {
        assert !Matches(items, key, k, except, i);
      }
    }
  }

  /** With unique ids, the document holding an id is the one `findById` finds. */
  lemma {:induction false} FindByIdIs<T>(items: seq<Entry<T>>, id: nat, k: nat)
    requires IdsUnique(items) && k < |items| && items[k].id == id
    ensures Records.FindById(items, id) == Some(k)
  {
    var r := Records.FindById(items, id);
    assert r.Some?;
    assert items[r.value].id == items[k].id;
  }

  lemma RemoveKeepsIds<T>(items: seq<Entry<T>>, k: nat)
    requires k < |items| && IdsUnique(items)
    ensures IdsUnique(items[..k] + items[k + 1..])
    ensures forall e :: e in items[..k] + items[k + 1..] ==> e in items
  {
    var s := items[..k] + items[k + 1..];
    assert forall i :: 0 <= i < |s| ==> s[i] == items[if i < k then i else i + 1];
  }

  /**
   * The DTO of an update: the value of the key field it carries (`None` when
   * the field is absent), and `patch`, the field assignment
   * `findByIdAndUpdate` performs, which sets the key to that value when the
   * DTO carries it and leaves it alone otherwise.
   */
  ghost predicate SetsKey<T(!new)>(patch: T -> T, key: T -> string, given: Option<string>)
  {
    forall x :: key(patch(x)) == (if given.Some? then given.value else key(x))
  }

  /**
   * The services' check on update: a key that is given, non-empty and
   * different from the stored one must not be held by another document.
   */
  predicate RenameConflict<T>(items: seq<Entry<T>>, key: T -> string, k: nat, given: Option<string>)
    requires k < |items|
  {
    given.Some? && given.value != "" && given.value != key(items[k].rec) &&
    KeyHeldByOther(items, key, given.value, Some(items[k].id))
  }

  /** An update that passes the check leaves non-empty keys unique. */
  lemma UpdateKeepsKeysUnique<T(!new)>(items: seq<Entry<T>>, key: T -> string, k: nat,
                                       given: Option<string>, patch: T -> T)
    requires k < |items| && IdsUnique(items) && KeysUnique(items, key)
    requires SetsKey(patch, key, given) && !RenameConflict(items, key, k, given)
    ensures KeysUnique(items[k := Entry(items[k].id, patch(items[k].rec))], key)
  {
    ReplaceKeepsKeysUnique(items, key, k, patch(items[k].rec));
  }

  /** `existsSync(name) ? readFileSync(name) : fallback`. */
  function FileOr(files: map<string, string>, name: string, fallback: string): string
  {
    if name in files then files[name] else fallback
  }

  /** Writing two files leaves every other file as it was and creates no other. */
  lemma WriteTwoKeepsOthers(files: map<string, string>, a: string, x: string, b: string, y: string)
    ensures var r := files[a := x][b := y];
      (forall n :: n in files && n != a && n != b ==> n in r && r[n] == files[n]) &&
      (forall n :: n in r ==> n in files || n == a || n == b)
  {
  }

  /** Writing the same two files with the same texts again changes nothing. */
  lemma WriteTwoAgain(files: map<string, string>, a: string, x: string, b: string, y: string)
    requires a != b
    ensures var once := files[a := x][b := y];
      once[a := x][b := y] == once && b in once && once[b] == y
  {
  }

  /** Once a file is written, reading it gives the text, and writing the text again changes nothing. */
  lemma WriteAgain(files: map<string, string>, a: string, x: string, fallback: string)
    ensures FileOr(files[a := x], a, fallback) == x
    ensures files[a := x][a := x] == files[a := x]
  {
  }

  /** Writing one file does not change what reading another gives. */
  lemma FileOrOther(files: map<string, string>, a: string, x: string, b: string, fallback: string)
    requires a != b
    ensures FileOr(files[a := x], b, fallback) == FileOr(files, b, fallback)
  {
  }

  /**
   * The Asterisk configuration directory: file name to text; a name that is
   * not a key is a missing file.
   */
  class ConfigFiles {
    var files: map<string, string>

    constructor(initial: map<string, string>)
      ensures files == initial
    {
      files := initial;
    }

    /** `writeFileSync`: the file is created or overwritten whole. */
    method Write(name: string, text: string)
      modifies this
      ensures files == old(files)[name := text]
    {
      files := files[name := text];
    }
  }

  /** The configuration files the services write, by name within the directory. */
  const QueuesConfFile := "queues.conf"
  const ExtensionsConfFile := "extensions.conf"
  const SipConfFile := "sip.conf"

  /** The extensions.conf the queue and route services start from when the file is missing. */
  const ExtensionsSkeleton := "[general]\n  static=yes\n  writeprotect=no\n  autofallthrough=yes\n"
    + "  extenpatternmatchnew=yes\n  clearglobalvars=no\n  \n  [globals]\n  \n  "
}
