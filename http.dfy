/**
 * The parts of the `http` crate that the server's code relies on: the
 * header map it fills and iterates, the rule that decides whether a string is
 * a valid header value, the range of valid status codes, and a response.
 */
module Http {
  import opened Wrappers

  /** One header name with the values stored under it, oldest first. */
  datatype Entry = Entry(name: string, values: seq<string>)

  /** A `HeaderMap`: its entries in insertion order. */
  type HeaderMap = seq<Entry>

  function Names(h: HeaderMap): (ns: set<string>)
    ensures forall i :: 0 <= i < |h| ==> h[i].name in ns
    ensures forall n :: n in ns ==> exists i :: 0 <= i < |h| && h[i].name == n
  {
    if h == [] then {} else {h[0].name} + Names(h[1..])
  }

  /** Every entry holds at least one value and no name occurs twice. */
  ghost predicate WellFormed(h: HeaderMap)
  {
    && (forall i :: 0 <= i < |h| ==> h[i].values != [])
    && (forall i, j :: 0 <= i < j < |h| ==> h[i].name != h[j].name)
  }

  /** Each name holds exactly one value (a map filled only by `insert`). */
  ghost predicate SingleValued(h: HeaderMap)
  {
    forall i :: 0 <= i < |h| ==> |h[i].values| == 1
  }

  /** `HeaderMap::get_all`: the values stored under `name`, none if it is absent. */
  function Lookup(h: HeaderMap, name: string): (vs: seq<string>)
    ensures name !in Names(h) ==> vs == []
    ensures vs != [] ==> exists i :: 0 <= i < |h| && h[i].name == name && h[i].values == vs
  {
    if h == [] then []
    else if h[0].name == name then h[0].values
    else Lookup(h[1..], name)
  }

  /** `HeaderMap::insert`: replace the values of an entry already present, or append a new one. */
  function Insert(h: HeaderMap, name: string, value: string): (r: HeaderMap)
    ensures |h| <= |r| <= |h| + 1
  {
    if h == [] then [Entry(name, [value])]
    else if h[0].name == name then [Entry(name, [value])] + h[1..]
    else [h[0]] + Insert(h[1..], name, value)
  }

  /**
   * After `insert` the name holds exactly the value, every other name keeps
   * its values, and an entry already present keeps its position.
   */
  lemma {:induction false} InsertSemantics(h: HeaderMap, name: string, value: string)
    ensures Lookup(Insert(h, name, value), name) == [value]
    ensures forall n :: n != name ==> Lookup(Insert(h, name, value), n) == Lookup(h, n)
    ensures Names(Insert(h, name, value)) == Names(h) + {name}
    ensures |Insert(h, name, value)| == if name in Names(h) then |h| else |h| + 1
    ensures forall i :: 0 <= i < |h| ==> Insert(h, name, value)[i].name == h[i].name
  {
    InsertLookup(h, name, value);
    InsertNames(h, name, value);
    InsertKeepsPositions(h, name, value);
  }

  lemma {:induction false} InsertKeepsPositions(h: HeaderMap, name: string, value: string)
    ensures |h| <= |Insert(h, name, value)|
    ensures forall i :: 0 <= i < |h| ==> Insert(h, name, value)[i].name == h[i].name
  {
    if h != [] && h[0].name != name {
      InsertKeepsPositions(h[1..], name, value);
      var r := Insert(h, name, value);
      assert r == [h[0]] + Insert(h[1..], name, value);
      forall i | 1 <= i < |h| ensures r[i].name == h[i].name {
        assert r[i] == Insert(h[1..], name, value)[i - 1];
        assert h[i] == h[1..][i - 1];
      }
    }
  }

  lemma {:induction false} InsertLookup(h: HeaderMap, name: string, value: string)
    ensures Lookup(Insert(h, name, value), name) == [value]
    ensures forall n :: n != name ==> Lookup(Insert(h, name, value), n) == Lookup(h, n)
  {
    if h != [] && h[0].name != name {
      InsertLookup(h[1..], name, value);
    }
  }

  lemma {:induction false} InsertNames(h: HeaderMap, name: string, value: string)
    ensures Names(Insert(h, name, value)) == Names(h) + {name}
    ensures |Insert(h, name, value)| == if name in Names(h) then |h| else |h| + 1
  {
    if h != [] && h[0].name != name {
      InsertNames(h[1..], name, value);
    }
  }

  lemma {:induction false} InsertAbsent(h: HeaderMap, name: string, value: string)
    requires forall i :: 0 <= i < |h| ==> h[i].name != name
    ensures Insert(h, name, value) == h + [Entry(name, [value])]
  {
    var e := Entry(name, [value]);
    if h == [] {
      assert h + [e] == [e];
    } else {
      assert h == [h[0]] + h[1..];
      assert h[0].name != name;
      assert forall i :: 0 <= i < |h[1..]| ==> h[1..][i].name == h[i + 1].name;
      InsertAbsent(h[1..], name, value);
      calc {
        Insert(h, name, value);
        [h[0]] + Insert(h[1..], name, value);
        [h[0]] + (h[1..] + [e]);
        ([h[0]] + h[1..]) + [e];
        h + [e];
      }
    }
  }

  /** The first entry with a name decides what `get_all` returns for it. */
  lemma {:induction false} LookupAt(h: HeaderMap, i: nat)
    requires i < |h|
    requires forall j :: 0 <= j < i ==> h[j].name != h[i].name
    ensures Lookup(h, h[i].name) == h[i].values
  {
    if i > 0 {
      LookupAt(h[1..], i - 1);
    }
  }

  /**
   * What `HeaderMap`'s `IntoIterator` yields for one entry: the name with its
   * first value, then `None` with each further value.
   */
  function EntryItems(e: Entry): (r: seq<(Option<string>, string)>)
    ensures forall k :: 0 <= k < |r| && r[k].0.Some? ==> k == 0 && r[k].0.value == e.name
  {
    if e.values == [] then [] else [(Some(e.name), e.values[0])] + UnnamedItems(e.values[1..])
  }

  function UnnamedItems(vs: seq<string>): (r: seq<(Option<string>, string)>)
    ensures |r| == |vs| && forall k :: 0 <= k < |r| ==> r[k] == (None, vs[k])
  {
    if vs == [] then [] else [(None, vs[0])] + UnnamedItems(vs[1..])
  }

  /** The items of `for (name, value) in map`, entry by entry. */
  function Items(h: HeaderMap): (r: seq<(Option<string>, string)>)
    ensures forall k :: 0 <= k < |r| && r[k].0.Some? ==> r[k].0.value in Names(h)
  {
    if h == [] then [] else Items(h[..|h| - 1]) + EntryItems(h[|h| - 1])
  }

  /** `http::HeaderValue::from_str` accepts a byte iff it is a tab, or at least 32 and not 127. */
  predicate IsHeaderValueChar(c: char)
  {
    c == '\t' || (32 <= c as int && c as int != 127)
  }

  /**
   * `http::HeaderValue::from_str` accepts a string iff every character is
   * accepted (characters above 127 encode to bytes of at least 128).
   */
  predicate IsHeaderValue(s: string)
  {
    forall i :: 0 <= i < |s| ==> IsHeaderValueChar(s[i])
  }

  /** A concatenation is a valid header value exactly when both parts are. */
  lemma IsHeaderValueConcat(a: string, b: string)
    ensures IsHeaderValue(a + b) <==> IsHeaderValue(a) && IsHeaderValue(b)
  {
    if IsHeaderValue(a + b) {
      assert forall i :: 0 <= i < |a| ==> a[i] == (a + b)[i];
      assert forall i :: 0 <= i < |b| ==> b[i] == (a + b)[|a| + i];
    }
  }

  /** `http::StatusCode` accepts the codes 100 to 999. */
  predicate IsStatusCode(code: int)
  {
    100 <= code <= 999
  }

  datatype Response = Response(status: int, headers: HeaderMap, body: string)
}
