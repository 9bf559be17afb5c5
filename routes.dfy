/**
 * The recovery handler of the second generation (`handle_rejection` in
 * src/routes.rs): an `AppRejection` is answered with its own status and a
 * copy of its headers, everything else with 405, 404 or 500.
 */
module Routes {
  import opened Wrappers
  import opened Http
  import opened AppRejections
  import opened Warp

  /** A reply, or a panic of the tokio worker serving the request. */
  datatype Outcome = Sent(response: Response) | Panicked

  /**
   * The header map left by the copy loop after it has seen `items`, starting
   * from `acc`: each item with a name is inserted, the others are skipped.
   */
  function CopyNamed(acc: HeaderMap, items: seq<(Option<string>, string)>): (r: HeaderMap)
    ensures Names(acc) <= Names(r)
    ensures forall k :: 0 <= k < |items| && items[k].0.Some? ==> items[k].0.value in Names(r)
  {
    if items == [] then acc
    else
      var before := CopyNamed(acc, items[..|items| - 1]);
      var (name, value) := items[|items| - 1];
      var r := if name.Some? then Insert(before, name.value, value) else before;
      assert Names(before) <= Names(r) && (name.Some? ==> name.value in Names(r)) by {
        if name.Some? { InsertSemantics(before, name.value, value); }
      }
      assert forall k :: 0 <= k < |items| - 1 ==> items[k] == items[..|items| - 1][k];
      r
  }

  /** Every entry of a map, cut down to its first value; entries without a value vanish. */
  function FirstValues(h: HeaderMap): (r: HeaderMap)
    ensures (forall i :: 0 <= i < |h| ==> h[i].values != []) ==>
              |r| == |h| && forall i :: 0 <= i < |h| ==> r[i] == Entry(h[i].name, [h[i].values[0]])
  {
    if h == [] then []
    else
      var last := h[|h| - 1];
      FirstValues(h[..|h| - 1]) + (if last.values == [] then [] else [Entry(last.name, [last.values[0]])])
  }

  /** The loop over a concatenation is the loop over the second part, started where the first part ended. */
  lemma {:induction false} CopyNamedAppend(acc: HeaderMap, a: seq<(Option<string>, string)>, b: seq<(Option<string>, string)>)
    ensures CopyNamed(acc, a + b) == CopyNamed(CopyNamed(acc, a), b)
  {
    if b == [] {
      assert a + b == a;
    } else {
      CopyNamedAppend(acc, a, b[..|b| - 1]);
      assert (a + b)[..|a + b| - 1] == a + b[..|b| - 1];
      assert (a + b)[|a + b| - 1] == b[|b| - 1];
    }
  }

  /** The unnamed items of a name's second and later values change nothing. */
  lemma {:induction false} CopyNamedUnnamed(acc: HeaderMap, vs: seq<string>)
    ensures CopyNamed(acc, UnnamedItems(vs)) == acc
  {
    if vs != [] {
      var head: seq<(Option<string>, string)> := [(None, vs[0])];
      CopyNamedUnnamed(acc, vs[1..]);
      assert UnnamedItems(vs) == head + UnnamedItems(vs[1..]);
      CopyNamedAppend(acc, head, UnnamedItems(vs[1..]));
      assert head[..0] == [];
    }
  }

  /**
   * Copying a well-formed map item by item keeps, for every name and in the
   * same order, only the first of its values.
   */
  lemma {:induction false} CopyNamedItems(h: HeaderMap)
    requires WellFormed(h)
    ensures CopyNamed([], Items(h)) == FirstValues(h)
  {
    if h != [] {
      var init, last := h[..|h| - 1], h[|h| - 1];
      assert WellFormed(init) by {
        assert forall i :: 0 <= i < |init| ==> init[i] == h[i];
      }
      CopyNamedItems(init);
      var acc := FirstValues(init);
      CopyNamedAppend([], Items(init), EntryItems(last));
      var first: seq<(Option<string>, string)> := [(Some(last.name), last.values[0])];
      assert EntryItems(last) == first + UnnamedItems(last.values[1..]);
      CopyNamedAppend(acc, first, UnnamedItems(last.values[1..]));
      assert first[..0] == [];
      CopyNamedUnnamed(Insert(acc, last.name, last.values[0]), last.values[1..]);
      assert forall i :: 0 <= i < |acc| ==> acc[i].name == h[i].name;
      InsertAbsent(acc, last.name, last.values[0]);
    }
  }

  /** A map filled by `insert` alone is copied unchanged. */
  lemma SingleValuedCopiedUnchanged(h: HeaderMap)
    requires WellFormed(h) && SingleValued(h)
    ensures CopyNamed([], Items(h)) == h
  {
    CopyNamedItems(h);
    assert forall i :: 0 <= i < |h| ==> h[i].values == [h[i].values[0]];
  }

  /**
   * The loop of handle_rejection: for each item of the rejection's headers,
   * insert it into the response's headers if it carries a name.
   */
  method CopyHeaders(clonedHeaders: HeaderMap) returns (respHeaders: HeaderMap)
    ensures respHeaders == CopyNamed([], Items(clonedHeaders))
    ensures WellFormed(clonedHeaders) ==> respHeaders == FirstValues(clonedHeaders)
  {
    var items := Items(clonedHeaders);
    respHeaders := [];
    var i := 0;
    while i < |items|
      invariant 0 <= i <= |items|
      invariant respHeaders == CopyNamed([], items[..i])
    {
      var (name, value) := items[i];
      if name.Some? {
        respHeaders := Insert(respHeaders, name.value, value);
      }
      assert items[..i + 1][..i] == items[..i] && items[..i + 1][i] == items[i];
      i := i + 1;
    }
    assert items[..i] == items;
    if WellFormed(clonedHeaders) {
      CopyNamedItems(clonedHeaders);
    }
  }

  /**
   * handle_rejection: the first `AppRejection` wins, its status code must be
   * one the response builder accepts (otherwise `headers_mut().unwrap()`
   * panics), and its headers are copied by inserting each named item; with
   * none, a method mismatch is 405, warp's not-found 404 and anything else
   * 500 without headers. Every body is empty.
   */
  method HandleRejection(rej: Rejection) returns (out: Outcome)
    ensures FindAppRejection(rej.causes).Some? ==>
              var app := FindAppRejection(rej.causes).value;
              && (out.Panicked? <==> !IsStatusCode(app.statusCode))
              && (out.Sent? ==> out.response.status == app.statusCode
                                && out.response.headers == CopyNamed([], Items(app.headers)))
              && (out.Sent? && WellFormed(app.headers) ==> out.response.headers == FirstValues(app.headers))
    ensures FindAppRejection(rej.causes).None? ==>
              out.Sent? && out.response.headers == []
              && out.response.status == (if HasMethodNotAllowed(rej) then 405 else if IsNotFound(rej) then 404 else 500)
    ensures out.Sent? ==> out.response.body == ""
  {
    var found := FindAppRejection(rej.causes);
    if found.Some? {
      var appRej := found.value;
      if !IsStatusCode(appRej.statusCode) {
        return Panicked;
      }
      var clonedHeaders := appRej.headers;
      var respHeaders := CopyHeaders(clonedHeaders);
      return Sent(Response(appRej.statusCode, respHeaders, ""));
    }

    if HasMethodNotAllowed(rej) {
      return Sent(Response(405, [], ""));
    }

    if IsNotFound(rej) {
      return Sent(Response(404, [], ""));
    }

    return Sent(Response(500, [], ""));
  }
}
