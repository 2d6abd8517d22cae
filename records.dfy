/**
 * The stored PBX records (extensions, trunks, queues, outbound and inbound
 * routes), the error kinds the services raise, and the store-level rules
 * they share: natural-key uniqueness and the ordering used by `find().sort()`.
 *
 * An optional string field that the source only ever reads through `||` or a
 * truthiness test is a plain `string` here, with "" standing for "not set":
 * JavaScript treats `undefined` and "" alike in both positions. A number read
 * through `||` is an `int` with 0 standing for "not set" for the same reason.
 */
module Records {

  datatype Option<T> = None | Some(value: T)

  /** The exceptions the services throw, by kind. */
  datatype Error =
    | Conflict(what: string)
    | NotFound(what: string)
    | NotConnected
    | UnknownConfigType(kind: string)
    | ReferenceError(name: string)
    | ReloadFailed(moduleName: string)
    | StoreRejected(what: string)

  datatype Result<T> = Ok(value: T) | Err(error: Error)

  /** The outcome of a step whose value is not used. */
  function Done<T>(r: Result<T>): Result<()>
  {
    match r
    case Ok(_) => Ok(())
    case Err(e) => Err(e)
  }

  /** `v` once the step `r` has succeeded; the step's error otherwise. */
  function Then<T>(r: Result<()>, v: T): Result<T>
  {
    match r
    case Ok(_) => Ok(v)
    case Err(e) => Err(e)
  }

  /** `s || d` for a string. */
  function Or(s: string, d: string): (r: string)
    ensures s != "" ==> r == s
    ensures s == "" ==> r == d
  {
    if s != "" then s else d
  }

  /** `n || d` for a number: 0 is falsy. */
  function OrInt(n: int, d: int): (r: int)
    ensures n != 0 ==> r == n
    ensures n == 0 ==> r == d
  {
    if n != 0 then n else d
  }

  datatype TrunkType = Sip | Pjsip | Iax

  datatype Extension = Extension(
    extension: string,
    name: string,
    secret: string,
    context: string,
    host: string,
    callGroup: string,
    pickupGroup: string,
    mailbox: string,
    email: string,
    dtmfMode: string,
    transport: string,
    natMode: string,
    callLimit: int,
    disallow: string,
    allow: string)

  /**
   * `secret` is an `Option` because the legacy server interpolates it
   * directly, where an unset value renders as the text "undefined".
   */
  datatype Trunk = Trunk(
    name: string,
    kind: TrunkType,
    host: string,
    username: string,
    secret: Option<string>,
    context: string,
    dtmfMode: string,
    transport: string,
    insecure: string,
    natMode: string,
    qualifyFreq: int,
    disallow: string,
    allow: string)

  datatype Queue = Queue(
    name: string,
    strategy: string,
    timeout: int,
    wrapuptime: int,
    maxlen: int,
    announce: string,
    members: seq<string>,
    musicClass: string)

  datatype OutboundRoute = OutboundRoute(
    name: string,
    pattern: string,
    trunk: string,
    prepend: string,
    prefix: string,
    callerIdName: string,
    callerIdNumber: string,
    priority: int)

  /** `destinationType` is a string: updates do not re-check the enum. */
  datatype InboundRoute = InboundRoute(
    name: string,
    did: string,
    destination: string,
    destinationType: string,
    callerIdName: string,
    priority: int)

  /**
   * A call detail record. A date is a time in milliseconds, or `None` for
   * an invalid date.
   */
  datatype Cdr = Cdr(
    uniqueid: string,
    src: string,
    dst: string,
    dcontext: string,
    clid: string,
    channel: string,
    dstchannel: string,
    lastapp: string,
    lastdata: string,
    start: Option<int>,
    answer: Option<int>,
    end: Option<int>,
    duration: int,
    billsec: int,
    disposition: string,
    amaflags: string,
    accountcode: string,
    userfield: string,
    recordingfile: string)

  /** A stored document: its `_id` and its fields. */
  datatype Entry<T> = Entry(id: nat, rec: T)

  /** Position of the document with the given id, as `findById` looks it up. */
  function FindById<T>(items: seq<Entry<T>>, id: nat): (r: Option<nat>)
    ensures r.Some? ==> r.value < |items| && items[r.value].id == id
    ensures r.None? ==> forall i :: 0 <= i < |items| ==> items[i].id != id
  {
    if items == [] then None
    else if items[0].id == id then Some(0)
    else match FindById(items[1..], id)
      case None => None
      case Some(i) => Some(i + 1)
  }

  /** Some document other than `id` has natural key `k` (a `findOne` with `_id: {$ne: id}`). */
  predicate KeyHeldByOther<T>(items: seq<Entry<T>>, key: T -> string, k: string, id: Option<nat>)
  {
    exists i :: 0 <= i < |items| && key(items[i].rec) == k && Some(items[i].id) != id
  }

  predicate IdsUnique<T>(items: seq<Entry<T>>)
  {
    forall i, j :: 0 <= i < j < |items| ==> items[i].id != items[j].id
  }

  /** Non-empty natural keys are held by at most one document. */
  predicate KeysUnique<T>(items: seq<Entry<T>>, key: T -> string)
  {
    forall i, j :: 0 <= i < j < |items| && key(items[i].rec) != "" ==>
      key(items[i].rec) != key(items[j].rec)
  }

  /** Appending a document whose key is empty or held by nobody keeps keys unique. */
  lemma AppendKeepsKeysUnique<T>(items: seq<Entry<T>>, key: T -> string, e: Entry<T>)
    requires KeysUnique(items, key)
    requires key(e.rec) == "" || !KeyHeldByOther(items, key, key(e.rec), None)
    ensures KeysUnique(items + [e], key)
  {
    var s := items + [e];
    forall i, j | 0 <= i < j < |s| && key(s[i].rec) != "" ensures key(s[i].rec) != key(s[j].rec) {
      if j == |items| {
        assert s[i] == items[i];
        assert Some(items[i].id) != None;
      }
    }
  }

  /**
   * Replacing document `k` by one whose key is empty, unchanged, or held by
   * no other document keeps keys unique.
   */
  lemma ReplaceKeepsKeysUnique<T>(items: seq<Entry<T>>, key: T -> string, k: nat, r: T)
    requires k < |items| && KeysUnique(items, key)
    requires key(r) == "" || key(r) == key(items[k].rec) ||
             !KeyHeldByOther(items, key, key(r), Some(items[k].id))
    requires IdsUnique(items)
    ensures KeysUnique(items[k := Entry(items[k].id, r)], key)
  {
    var s := items[k := Entry(items[k].id, r)];
    forall i, j | 0 <= i < j < |s| && key(s[i].rec) != "" ensures key(s[i].rec) != key(s[j].rec) {
      if i == k && key(r) != key(items[k].rec) {
        assert Some(items[j].id) != Some(items[k].id);
      } else if j == k && key(r) != key(items[k].rec) {
        assert Some(items[i].id) != Some(items[k].id);
      }
    }
  }

  lemma RemoveKeepsKeysUnique<T>(items: seq<Entry<T>>, key: T -> string, k: nat)
    requires k < |items| && KeysUnique(items, key) && IdsUnique(items)
    ensures KeysUnique(items[..k] + items[k + 1..], key)
    ensures IdsUnique(items[..k] + items[k + 1..])
  {
    var s := items[..k] + items[k + 1..];
    assert forall i :: 0 <= i < |s| ==> s[i] == items[if i < k then i else i + 1];
  }

  // ---------------------------------------------------------------------
  // Ordering used by `find().sort({priority: 1})` and `sort({name: 1})`.
  // ---------------------------------------------------------------------

  /** Code-point lexicographic order on strings, as MongoDB compares them. */
  predicate LexLe(a: string, b: string)
    decreases |a|
  {
    if a == [] then true
    else if b == [] then false
    else if a[0] != b[0] then a[0] < b[0]
    else LexLe(a[1..], b[1..])
  }

  lemma {:induction false} LexLeTotal(a: string, b: string)
    ensures LexLe(a, b) || LexLe(b, a)
    decreases |a|
  {
    if a != [] && b != [] && a[0] == b[0] {
      LexLeTotal(a[1..], b[1..]);
    }
  }

  lemma {:induction false} LexLeTransitive(a: string, b: string, c: string)
    requires LexLe(a, b) && LexLe(b, c)
    ensures LexLe(a, c)
    decreases |a|
  {
    if a != [] && b != [] && c != [] && a[0] == b[0] && b[0] == c[0] {
      LexLeTransitive(a[1..], b[1..], c[1..]);
    }
  }

  predicate Sorted<T>(xs: seq<T>, le: (T, T) -> bool)
  {
    forall i, j :: 0 <= i < j < |xs| ==> le(xs[i], xs[j])
  }

  ghost predicate TotalPreorder<T(!new)>(le: (T, T) -> bool)
  {
    (forall a, b :: le(a, b) || le(b, a)) &&
    (forall a, b, c :: le(a, b) && le(b, c) ==> le(a, c))
  }

  /** Insert `x` into the sorted `xs` after every element not greater than it. */
  function Insert<T>(x: T, xs: seq<T>, le: (T, T) -> bool): (r: seq<T>)
    ensures multiset(r) == multiset(xs) + multiset{x}
    ensures |r| == |xs| + 1
  {
    if xs == [] then [x]
    else if le(xs[0], x) then
      assert xs == [xs[0]] + xs[1..];
      [xs[0]] + Insert(x, xs[1..], le)
    else [x] + xs
  }

  lemma {:induction false} InsertSorted<T(!new)>(x: T, xs: seq<T>, le: (T, T) -> bool)
    requires TotalPreorder(le) && Sorted(xs, le)
    ensures Sorted(Insert(x, xs, le), le)
  {
    if xs != [] && le(xs[0], x) {
      InsertSorted(x, xs[1..], le);
      var r := Insert(x, xs, le);
      var t := Insert(x, xs[1..], le);
      assert multiset(t) == multiset(xs[1..]) + multiset{x};
      forall j | 1 <= j < |r| ensures le(xs[0], r[j]) {
        assert r[j] == t[j - 1];
        assert r[j] in multiset(t);
        if r[j] != x {
          assert r[j] in multiset(xs[1..]);
          var k :| 0 <= k < |xs[1..]| && xs[1..][k] == r[j];
          assert xs[k + 1] == r[j];
        }
      }
    } else if xs != [] {
      var r := Insert(x, xs, le);
      forall j | 1 <= j < |r| ensures le(x, r[j]) {
        assert le(r[j], xs[0]) || r[j] == xs[0] || le(xs[0], r[j]);
        assert le(xs[0], x) || le(x, xs[0]);
      }
    }
  }

  /** What `find().sort(...)` returns: the documents ordered by `le`. */
  function SortBy<T>(xs: seq<T>, le: (T, T) -> bool): (r: seq<T>)
    ensures multiset(r) == multiset(xs)
  {
    if xs == [] then []
    else
      assert xs == [xs[0]] + xs[1..];
      Insert(xs[0], SortBy(xs[1..], le), le)
  }

  lemma {:induction false} SortBySorted<T(!new)>(xs: seq<T>, le: (T, T) -> bool)
    requires TotalPreorder(le)
    ensures Sorted(SortBy(xs, le), le)
    ensures multiset(SortBy(xs, le)) == multiset(xs)
  {
    if xs != [] {
      SortBySorted(xs[1..], le);
      InsertSorted(xs[0], SortBy(xs[1..], le), le);
    }
  }

  function ByPriority(a: OutboundRoute, b: OutboundRoute): bool { a.priority <= b.priority }
  function InboundByPriority(a: InboundRoute, b: InboundRoute): bool { a.priority <= b.priority }
  function OutboundByName(a: OutboundRoute, b: OutboundRoute): bool { LexLe(a.name, b.name) }
  function InboundByName(a: InboundRoute, b: InboundRoute): bool { LexLe(a.name, b.name) }

  lemma PriorityOrdersArePreorders()
    ensures TotalPreorder(ByPriority) && TotalPreorder(InboundByPriority)
  {
  }

  lemma {:induction false} NameOrdersArePreorders()
    ensures TotalPreorder(OutboundByName) && TotalPreorder(InboundByName)
  {
    forall a: OutboundRoute, b: OutboundRoute ensures OutboundByName(a, b) || OutboundByName(b, a) {
      LexLeTotal(a.name, b.name);
    }
    forall a: OutboundRoute, b: OutboundRoute, c: OutboundRoute
      | OutboundByName(a, b) && OutboundByName(b, c) ensures OutboundByName(a, c) {
      LexLeTransitive(a.name, b.name, c.name);
    }
    forall a: InboundRoute, b: InboundRoute ensures InboundByName(a, b) || InboundByName(b, a) {
      LexLeTotal(a.name, b.name);
    }
    forall a: InboundRoute, b: InboundRoute, c: InboundRoute
      | InboundByName(a, b) && InboundByName(b, c) ensures InboundByName(a, c) {
      LexLeTransitive(a.name, b.name, c.name);
    }
  }
}
