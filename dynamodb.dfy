/** The marshalling layer of the small DynamoDB client: Python values to
    and from DynamoDB's tagged attribute values, items with top-level None
    attributes dropped, the pagination loop of `Scan`, the shaping of
    `GetItem` and `UpdateItem` results, and the mapping of an error response
    to an exception type. The HTTP exchange itself is a parameter. */
module DynamoDb {
  import opened Common
  import opened Text
  import opened Seqs

  /** The Python values the client marshals. `PyFloat` keeps the text of a
      number that does not parse as an integer; `PyOther` is any other
      object, by its `str()`. */
  datatype PyValue =
    | PyNone
    | PyBool(b: bool)
    | PyInt(i: int)
    | PyFloat(text: string)
    | PyStr(s: string)
    | PyList(items: seq<PyValue>)
    | PyDict(entries: map<string, PyValue>)
    | PyOther(repr: string)

  /** A DynamoDB attribute value by its type tag; `Unknown` is any tag the
      client does not read (sets, binary). */
  datatype Attr =
    | NULL
    | BOOL(b: bool)
    | S(s: string)
    | N(n: string)
    | L(items: seq<Attr>)
    | M(entries: map<string, Attr>)
    | Unknown(tag: string)

  /** `_to_dynamodb`: None, bool (before int), str, numbers in decimal, lists
      and dicts recursively, anything else as its string. */
  function ToDynamo(v: PyValue): (a: Attr)
    ensures v.PyNone? <==> a.NULL?
    ensures !a.Unknown?
  {
    match v
    case PyNone => NULL
    case PyBool(b) => BOOL(b)
    case PyStr(s) => S(s)
    case PyInt(i) => N(IntToString(i))
    case PyFloat(t) => N(t)
    case PyList(items) => L(seq(|items|, i requires 0 <= i < |items| => ToDynamo(items[i])))
    case PyDict(m) => M(map k | k in m :: ToDynamo(m[k]))
    case PyOther(r) => S(r)
  }

  /** `_from_dynamodb`: a number is read as an integer first and as a float
      otherwise; an unknown tag gives None. */
  function FromDynamo(a: Attr): PyValue {
    match a
    case S(s) => PyStr(s)
    case N(n) => if ParseInt(n).Some? then PyInt(ParseInt(n).value) else PyFloat(n)
    case BOOL(b) => PyBool(b)
    case NULL => PyNone
    case L(items) => PyList(seq(|items|, i requires 0 <= i < |items| => FromDynamo(items[i])))
    case M(m) => PyDict(map k | k in m :: FromDynamo(m[k]))
    case Unknown(_) => PyNone
  }

  /** A tree of None, bool, int, str, lists and string-keyed dicts. */
  predicate Plain(v: PyValue) {
    match v
    case PyFloat(_) => false
    case PyOther(_) => false
    case PyList(items) => forall i :: 0 <= i < |items| ==> Plain(items[i])
    case PyDict(m) => forall k :: k in m ==> Plain(m[k])
    case _ => true
  }

  /** Marshalling a plain value and reading it back gives the value. */
  lemma {:induction false} FromToDynamo(v: PyValue)
    requires Plain(v)
    ensures FromDynamo(ToDynamo(v)) == v
  {
    match v
    case PyInt(i) =>
      ParseIntToString(i);
    case PyList(items) =>
      forall i | 0 <= i < |items| ensures FromDynamo(ToDynamo(items[i])) == items[i] {
        FromToDynamo(items[i]);
      }
    case PyDict(m) =>
      forall k | k in m ensures FromDynamo(ToDynamo(m[k])) == m[k] {
        FromToDynamo(m[k]);
      }
    case _ =>
  }

  /** Any other object comes back as its string. */
  lemma OtherBecomesString(r: string)
    ensures FromDynamo(ToDynamo(PyOther(r))) == PyStr(r)
  {
  }

  /** `_marshal_item`: every top-level attribute except those that are None. */
  function MarshalItem(item: map<string, PyValue>): (r: map<string, Attr>)
    ensures forall k :: k in r <==> k in item && item[k] != PyNone
  {
    map k | k in item && item[k] != PyNone :: ToDynamo(item[k])
  }

  function UnmarshalItem(item: map<string, Attr>): map<string, PyValue> {
    map k | k in item :: FromDynamo(item[k])
  }

  /** An item of plain values comes back without its None attributes; a None
      nested inside a list or dict survives as NULL. */
  lemma UnmarshalMarshal(item: map<string, PyValue>)
    requires forall k :: k in item ==> Plain(item[k])
    ensures UnmarshalItem(MarshalItem(item)) == map k | k in item && item[k] != PyNone :: item[k]
  {
    forall k | k in item && item[k] != PyNone ensures FromDynamo(ToDynamo(item[k])) == item[k] {
      FromToDynamo(item[k]);
    }
  }

  lemma NestedNoneKept(k: string)
    ensures MarshalItem(map[k := PyList([PyNone])]) == map[k := L([NULL])]
    ensures MarshalItem(map[k := PyNone]) == map[]
  {
    assert ToDynamo(PyList([PyNone])).items == [NULL];
  }

  /** An item returned by the service. */
  type Item = map<string, Attr>

  /** One response of a `Scan`: its items and, when there are more, the key
      to continue from. Item and key types are parameters so that the
      pagination argument does not depend on what they are. */
  datatype Page<T, K> = Page(items: seq<T>, lastKey: Option<K>)

  /** Python truthiness of the continuation key: present, and non-empty by
      `nonEmpty`. */
  predicate MorePages<T, K>(p: Page<T, K>, nonEmpty: K -> bool) {
    p.lastKey.Some? && nonEmpty(p.lastKey.value)
  }

  /** A dictionary key is truthy when it has an entry. */
  predicate ItemNonEmpty(k: Item) {
    |k| > 0
  }

  /** The items of the responses from the i-th on, up to and including the
      first without a continuation key, in order. */
  function ScanFrom<T, K>(pages: seq<Page<T, K>>, i: nat, nonEmpty: K -> bool): seq<T>
    decreases |pages| - i
  {
    if i >= |pages| then []
    else pages[i].items + (if MorePages(pages[i], nonEmpty) then ScanFrom(pages, i + 1, nonEmpty) else [])
  }

  /** The number of requests a scan makes from the i-th response on. */
  function ScanLengthFrom<T, K>(pages: seq<Page<T, K>>, i: nat, nonEmpty: K -> bool): nat
    decreases |pages| - i
  {
    if i >= |pages| then 0
    else if MorePages(pages[i], nonEmpty) then 1 + ScanLengthFrom(pages, i + 1, nonEmpty) else 1
  }

  /** The items of responses i up to (not including) n, concatenated. */
  function PageItems<T, K>(pages: seq<Page<T, K>>, i: nat, n: nat): seq<T>
    requires n <= |pages|
    decreases n - i
  {
    if i >= n then [] else pages[i].items + PageItems(pages, i + 1, n)
  }

  /** When the j-th response is the first without a continuation key, a scan
      from any earlier response makes requests up to and including j and
      returns exactly the items of those responses. */
  lemma ScanStopsAtFirstLast<T, K>(pages: seq<Page<T, K>>, i: nat, j: nat, nonEmpty: K -> bool)
    requires i <= j < |pages| && !MorePages(pages[j], nonEmpty)
    requires forall k :: i <= k < j ==> MorePages(pages[k], nonEmpty)
    ensures ScanFrom(pages, i, nonEmpty) == PageItems(pages, i, j + 1)
    ensures ScanLengthFrom(pages, i, nonEmpty) == j + 1 - i
  {
    ScanItemsUpTo(pages, i, j, nonEmpty);
    ScanLengthUpTo(pages, i, j, nonEmpty);
  }

  lemma {:induction false} ScanItemsUpTo<T, K>(pages: seq<Page<T, K>>, i: nat, j: nat, nonEmpty: K -> bool)
    requires i <= j < |pages| && !MorePages(pages[j], nonEmpty)
    requires forall k :: i <= k < j ==> MorePages(pages[k], nonEmpty)
    ensures ScanFrom(pages, i, nonEmpty) == PageItems(pages, i, j + 1)
    decreases j - i
  {
    if i == j {
      assert PageItems(pages, i + 1, j + 1) == [];
      assert pages[j].items + [] == pages[j].items;
    } else {
      assert MorePages(pages[i], nonEmpty);
      ScanItemsUpTo(pages, i + 1, j, nonEmpty);
      assert ScanFrom(pages, i, nonEmpty) == pages[i].items + ScanFrom(pages, i + 1, nonEmpty);
    }
  }

  lemma {:induction false} ScanLengthUpTo<T, K>(pages: seq<Page<T, K>>, i: nat, j: nat, nonEmpty: K -> bool)
    requires i <= j < |pages| && !MorePages(pages[j], nonEmpty)
    requires forall k :: i <= k < j ==> MorePages(pages[k], nonEmpty)
    ensures ScanLengthFrom(pages, i, nonEmpty) == j + 1 - i
    decreases j - i
  {
    if i < j {
      assert MorePages(pages[i], nonEmpty);
      ScanLengthUpTo(pages, i + 1, j, nonEmpty);
    }
  }

  /** The loop's account of the items so far, one response further on. */
  lemma ScanAdvance<T, K>(pages: seq<Page<T, K>>, i: nat, items: seq<T>, nonEmpty: K -> bool)
    requires i < |pages| && items + ScanFrom(pages, i, nonEmpty) == ScanFrom(pages, 0, nonEmpty)
    ensures !MorePages(pages[i], nonEmpty) ==> items + pages[i].items == ScanFrom(pages, 0, nonEmpty)
    ensures MorePages(pages[i], nonEmpty) ==>
      (items + pages[i].items) + ScanFrom(pages, i + 1, nonEmpty) == ScanFrom(pages, 0, nonEmpty)
    ensures ScanLengthFrom(pages, i, nonEmpty) ==
      if MorePages(pages[i], nonEmpty) then 1 + ScanLengthFrom(pages, i + 1, nonEmpty) else 1
  {
    var batch := pages[i].items;
    if MorePages(pages[i], nonEmpty) {
      var rest := ScanFrom(pages, i + 1, nonEmpty);
      assert (items + batch) + rest == items + (batch + rest);
    } else {
      assert batch + [] == batch;
    }
  }

  /** A response with a continuation key is not the last one the service
      sends. */
  lemma ScanNotLast<T, K>(pages: seq<Page<T, K>>, i: nat, nonEmpty: K -> bool)
    requires i < |pages| && MorePages(pages[i], nonEmpty)
    requires exists j :: i <= j < |pages| && !MorePages(pages[j], nonEmpty)
    ensures i + 1 < |pages| && exists j :: i + 1 <= j < |pages| && !MorePages(pages[j], nonEmpty)
  {
    var j :| i <= j < |pages| && !MorePages(pages[j], nonEmpty);
    assert j != i;
  }

  /** The pagination loop of `scan`: the i-th request is answered by
      `pages[i]`; the first request carries no start key and each later one
      carries the previous response's continuation key; each response's
      items are appended; the loop stops after the first response without a
      continuation key, which the service must eventually send. Returns the
      items and the start keys sent. */
  method ScanPages<T, K>(pages: seq<Page<T, K>>, nonEmpty: K -> bool)
    returns (items: seq<T>, startKeys: seq<Option<K>>)
    requires exists i :: 0 <= i < |pages| && !MorePages(pages[i], nonEmpty)
    ensures items == ScanFrom(pages, 0, nonEmpty)
    ensures 0 < |startKeys| == ScanLengthFrom(pages, 0, nonEmpty) <= |pages| && startKeys[0] == None
    ensures forall i :: 0 < i < |startKeys| ==> startKeys[i] == pages[i - 1].lastKey
  {
    items := [];
    startKeys := [None];
    var i := 0;
    while true
      invariant 0 <= i < |pages| && |startKeys| == i + 1 && startKeys[0] == None
      invariant exists j :: i <= j < |pages| && !MorePages(pages[j], nonEmpty)
      invariant forall j :: 0 < j < |startKeys| ==> startKeys[j] == pages[j - 1].lastKey
      invariant items + ScanFrom(pages, i, nonEmpty) == ScanFrom(pages, 0, nonEmpty)
      invariant ScanLengthFrom(pages, 0, nonEmpty) == i + ScanLengthFrom(pages, i, nonEmpty)
      decreases |pages| - i
    {
      var response := pages[i];
      ScanAdvance(pages, i, items, nonEmpty);
      items := items + response.items;
      if !MorePages(response, nonEmpty) {
        return;
      }
      ScanNotLast(pages, i, nonEmpty);
      startKeys := startKeys + [response.lastKey];
      i := i + 1;
    }
  }

  /** `scan` itself: the pagination loop over dictionary keys, every
      returned item unmarshalled. */
  method Scan(pages: seq<Page<Item, Item>>) returns (items: seq<map<string, PyValue>>, startKeys: seq<Option<Item>>)
    requires exists i :: 0 <= i < |pages| && !MorePages(pages[i], ItemNonEmpty)
    ensures items == Map(ScanFrom(pages, 0, ItemNonEmpty), UnmarshalItem)
    ensures 0 < |startKeys| == ScanLengthFrom(pages, 0, ItemNonEmpty) <= |pages| && startKeys[0] == None
    ensures forall i :: 0 < i < |startKeys| ==> startKeys[i] == pages[i - 1].lastKey
  {
    var raw;
    raw, startKeys := ScanPages(pages, ItemNonEmpty);
    items := Map(raw, UnmarshalItem);
  }

  /** `get_item`: the unmarshalled item, or None when the response has no
      item or an empty one. */
  function GetItemResult(responseItem: Option<Item>): (r: Option<map<string, PyValue>>)
    ensures r.Some? <==> responseItem.Some? && |responseItem.value| > 0
    ensures r.Some? ==> r.value.Keys == responseItem.value.Keys
  {
    if responseItem.Some? && |responseItem.value| > 0 then Some(UnmarshalItem(responseItem.value)) else None
  }

  /** `update_item`: the unmarshalled attributes when some return value was
      asked for and the response has them (even empty), else None. */
  function UpdateItemResult(returnValues: string, attributes: Option<Item>): (r: Option<map<string, PyValue>>)
    ensures r.Some? <==> returnValues != "NONE" && attributes.Some?
    ensures r.Some? ==> r.value == UnmarshalItem(attributes.value)
  {
    if returnValues != "NONE" && attributes.Some? then Some(UnmarshalItem(attributes.value)) else None
  }

  /** The failures a request can raise. */
  datatype DynamoError =
    | ConditionalCheckFailed(message: string)
    | OtherError(errorType: string, message: string)

  /** The error type of an error response: the text after the last `#` of
      its `__type`, "Unknown" when there is none. */
  function ErrorType(typeField: Option<string>): (t: string)
    ensures '#' !in t
  {
    var parts := Split(typeField.GetOr("Unknown"), '#');
    SplitParts(typeField.GetOr("Unknown"), '#');
    parts[|parts| - 1]
  }

  /** The error of a response: none for status 200; otherwise the
      conditional-check failure exactly when that is the error type, with the
      message from `message`, else `Message`, else "Unknown error". */
  function ResponseError(status: int, typeField: Option<string>, message: Option<string>, messageAlt: Option<string>)
    : (r: Option<DynamoError>)
    ensures r.None? <==> status == 200
    ensures r.Some? ==> (r.value.ConditionalCheckFailed? <==> ErrorType(typeField) == "ConditionalCheckFailedException")
    ensures r.Some? && r.value.OtherError? ==> r.value.errorType == ErrorType(typeField)
    ensures r.Some? ==> r.value.message == message.GetOr(messageAlt.GetOr("Unknown error"))
  {
    if status == 200 then None
    else
      var t := ErrorType(typeField);
      var msg := message.GetOr(messageAlt.GetOr("Unknown error"));
      if t == "ConditionalCheckFailedException" then Some(ConditionalCheckFailed(msg))
      else Some(OtherError(t, msg))
  }

  /** The last `#`-separated part of `a#b` is `b`. */
  lemma {:induction false} SplitLast(a: string, c: char, b: string)
    requires c !in b
    ensures |Split(a + [c] + b, c)| >= 2
    ensures Split(a + [c] + b, c)[|Split(a + [c] + b, c)| - 1] == b
  {
    var s := a + [c] + b;
    if |a| == 0 {
      SplitFirst(a, c, b);
      SplitAbsent(b, c);
    } else {
      assert s[1..] == a[1..] + [c] + b;
      SplitLast(a[1..], c, b);
    }
  }

  /** A namespaced error type is read by its last component. */
  lemma NamespacedErrorType(ns: string, t: string)
    requires '#' !in t
    ensures ErrorType(Some(ns + "#" + t)) == t
  {
    assert ns + "#" + t == ns + ['#'] + t;
    SplitLast(ns, '#', t);
  }
}
