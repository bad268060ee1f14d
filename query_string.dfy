/** `asQueryString` of client/src/services/query.js: an object serialised as "?" followed by
    key=value pairs joined by "&". The object is its entries in for-in order; the encoder
    (encodeURIComponent) and the rendering of numbers are parameters. */
module QueryString {
  import opened Strings
  import opened JsValue
  import opened Collections

  /** An array value is replaced by its elements joined with ",". */
  function QueryValue(v: Value, showNum: real -> string): (r: Value)
    ensures v.Arr? ==> r == Str(ToStr(v, showNum))
    ensures !v.Arr? ==> r == v
  {
    if v.Arr? then Str(ToStr(v, showNum)) else v
  }

  /** The values the serialiser leaves out: undefined, null, false and "". */
  predicate Omitted(v: Value) {
    v == Undefined || v == Null || v == Bool(false) || v == Str("")
  }

  /** The entries that produce a pair, in order, with their values after array joining
      (KeptEntriesMeaning says which are kept, KeptEntriesInOrder that their order is kept). */
  function KeptEntries(entries: seq<(string, Value)>, showNum: real -> string): (r: seq<(string, Value)>)
    ensures |r| <= |entries|
    ensures forall k :: 0 <= k < |r| ==> !Omitted(r[k].1) && !r[k].1.Arr?
  {
    if entries == [] then []
    else
      var last := entries[|entries| - 1];
      var v := QueryValue(last.1, showNum);
      KeptEntries(entries[..|entries| - 1], showNum) + (if Omitted(v) then [] else [(last.0, v)])
  }

  /** One pair: the encoded key, "=", the encoded String() of the value. */
  function Pair(key: string, v: Value, enc: string -> string, showNum: real -> string): string {
    enc(key) + "=" + enc(ToStr(v, showNum))
  }

  function Pairs(kept: seq<(string, Value)>, enc: string -> string, showNum: real -> string): (r: seq<string>)
    ensures |r| == |kept|
    ensures forall k :: 0 <= k < |kept| ==> r[k] == Pair(kept[k].0, kept[k].1, enc, showNum)
  {
    seq(|kept|, k requires 0 <= k < |kept| => Pair(kept[k].0, kept[k].1, enc, showNum))
  }

  /** The query string `asQueryString` returns. */
  function Query(entries: seq<(string, Value)>, enc: string -> string, showNum: real -> string): string {
    "?" + Join(Pairs(KeptEntries(entries, showNum), enc, showNum), "&")
  }

  /** The for-in loop of `asQueryString`, pushing one pair per kept key. */
  method AsQueryString(entries: seq<(string, Value)>, enc: string -> string, showNum: real -> string)
    returns (r: string)
    ensures r == Query(entries, enc, showNum)
  {
    var query: seq<string> := [];
    var i := 0;
    while i < |entries|
      invariant 0 <= i <= |entries|
      invariant query == Pairs(KeptEntries(entries[..i], showNum), enc, showNum)
    {
      var key := entries[i].0;
      var value := entries[i].1;
      if value.Arr? {
        value := Str(ToStr(value, showNum));
      }
      if !Omitted(value) {
        query := query + [enc(key) + "=" + enc(ToStr(value, showNum))];
      }
      assert entries[..i + 1][..i] == entries[..i];
      i := i + 1;
    }
    assert entries[..|entries|] == entries;
    r := "?" + Join(query, "&");
  }

  /** Each entry with its value after array joining. */
  function JoinedEntries(entries: seq<(string, Value)>, showNum: real -> string): (r: seq<(string, Value)>)
    ensures |r| == |entries|
    ensures forall i :: 0 <= i < |entries| ==> r[i] == (entries[i].0, QueryValue(entries[i].1, showNum))
  {
    seq(|entries|, i requires 0 <= i < |entries| => (entries[i].0, QueryValue(entries[i].1, showNum)))
  }

  /** The kept entries are the joined entries with some left out, the rest in their order. */
  lemma {:induction false} KeptEntriesInOrder(entries: seq<(string, Value)>, showNum: real -> string)
    ensures Subsequence(KeptEntries(entries, showNum), JoinedEntries(entries, showNum))
    decreases |entries|
  {
    if entries != [] {
      var init := entries[..|entries| - 1];
      var last := entries[|entries| - 1];
      KeptEntriesInOrder(init, showNum);
      SubsequenceSnoc(KeptEntries(init, showNum), JoinedEntries(init, showNum), (last.0, QueryValue(last.1, showNum)));
      var v := QueryValue(last.1, showNum);
      assert JoinedEntries(entries, showNum) == JoinedEntries(init, showNum) + [(last.0, v)];
      if Omitted(v) {
        assert KeptEntries(entries, showNum) == KeptEntries(init, showNum);
      } else {
        assert KeptEntries(entries, showNum) == KeptEntries(init, showNum) + [(last.0, v)];
      }
    }
  }

  /** A pair is kept exactly when it is a joined entry whose value is not omitted. */
  lemma {:induction false} KeptEntriesMember(entries: seq<(string, Value)>, showNum: real -> string)
    ensures forall p :: p in KeptEntries(entries, showNum) <==> p in JoinedEntries(entries, showNum) && !Omitted(p.1)
    decreases |entries|
  {
    if entries != [] {
      var init := entries[..|entries| - 1];
      var last := entries[|entries| - 1];
      var v := QueryValue(last.1, showNum);
      KeptEntriesMember(init, showNum);
      assert JoinedEntries(entries, showNum) == JoinedEntries(init, showNum) + [(last.0, v)];
      if Omitted(v) {
        assert KeptEntries(entries, showNum) == KeptEntries(init, showNum);
      } else {
        assert KeptEntries(entries, showNum) == KeptEntries(init, showNum) + [(last.0, v)];
      }
    }
  }

  /** An entry is kept exactly when its value, after array joining, is not omitted. */
  lemma KeptEntriesMeaning(entries: seq<(string, Value)>, showNum: real -> string)
    ensures var kept := KeptEntries(entries, showNum);
      forall key, v :: (key, v) in kept <==>
        exists i :: 0 <= i < |entries| && entries[i].0 == key
          && QueryValue(entries[i].1, showNum) == v && !Omitted(v)
  {
    var joined := JoinedEntries(entries, showNum);
    KeptEntriesMember(entries, showNum);
    forall key, v ensures (key, v) in joined <==>
      exists i :: 0 <= i < |entries| && entries[i].0 == key && QueryValue(entries[i].1, showNum) == v
    {
      if (key, v) in joined {
        var i :| 0 <= i < |joined| && joined[i] == (key, v);
        assert entries[i].0 == key && QueryValue(entries[i].1, showNum) == v;
      }
      if i :| 0 <= i < |entries| && entries[i].0 == key && QueryValue(entries[i].1, showNum) == v {
        assert joined[i] == (key, v);
      }
    }
  }

  /** Joining non-empty parts gives "" only for no parts. */
  lemma JoinEmpty(parts: seq<string>, sep: string)
    requires forall k :: 0 <= k < |parts| ==> parts[k] != ""
    ensures Join(parts, sep) == "" <==> parts == []
  {
    if parts != [] {
      JoinPartLength(parts, sep, 0);
    }
  }

  /** The result is exactly "?" iff no key is kept, i.e. every value is undefined, null, false,
      "" or an array whose joined text is "". */
  lemma QueryEmpty(entries: seq<(string, Value)>, enc: string -> string, showNum: real -> string)
    ensures Query(entries, enc, showNum) == "?" <==>
      forall i :: 0 <= i < |entries| ==> Omitted(QueryValue(entries[i].1, showNum))
  {
    var kept := KeptEntries(entries, showNum);
    var ps := Pairs(kept, enc, showNum);
    assert forall k :: 0 <= k < |ps| ==> '=' in ps[k] by {
      forall k | 0 <= k < |ps| ensures '=' in ps[k] {
        assert ps[k][|enc(kept[k].0)|] == '=';
      }
    }
    JoinEmpty(ps, "&");
    KeptEntriesMeaning(entries, showNum);
    if kept != [] {
      assert kept[0] in kept;
    }
    if i :| 0 <= i < |entries| && !Omitted(QueryValue(entries[i].1, showNum)) {
      assert (entries[i].0, QueryValue(entries[i].1, showNum)) in kept;
    }
  }

  /** A query-string reader: the text after "?" split on "&", and each pair split on "=" and
      decoded. A pair without "=" reads as a key with an empty value. */
  function ParseQuery(q: string, dec: string -> string): seq<(string, string)>
    requires |q| >= 1
  {
    if q == "?" then []
    else
      var ps := Split(q[1..], '&');
      seq(|ps|, k requires 0 <= k < |ps| =>
        var kv := Split(ps[k], '=');
        (dec(kv[0]), if |kv| > 1 then dec(kv[1]) else ""))
  }

  /** With an encoder that escapes "&" and "=" (as percent-encoding does, section 2.1 of
      RFC 3986) and a decoder that inverts it, reading the query string back gives each kept
      key with the String() of its value, in order. */
  lemma QueryRoundTrip(entries: seq<(string, Value)>, enc: string -> string, dec: string -> string,
                       showNum: real -> string)
    requires forall s :: '&' !in enc(s) && '=' !in enc(s) && dec(enc(s)) == s
    ensures var kept := KeptEntries(entries, showNum);
      var back := ParseQuery(Query(entries, enc, showNum), dec);
      && |back| == |kept|
      && forall k :: 0 <= k < |kept| ==> back[k] == (kept[k].0, ToStr(kept[k].1, showNum))
  {
    var kept := KeptEntries(entries, showNum);
    var ps := Pairs(kept, enc, showNum);
    var q := Query(entries, enc, showNum);
    if kept == [] {
      assert q == "?";
    } else {
      assert forall k :: 0 <= k < |ps| ==> '&' !in ps[k] by {
        forall k | 0 <= k < |ps| ensures '&' !in ps[k] {
          assert ps[k] == enc(kept[k].0) + "=" + enc(ToStr(kept[k].1, showNum));
        }
      }
      JoinPartLength(ps, "&", 0);
      assert q != "?" by {
        assert |ps[0]| >= 1 by {
          assert ps[0][|enc(kept[0].0)|] == '=';
        }
      }
      assert q[1..] == Join(ps, "&");
      SplitJoin(ps, '&');
      forall k | 0 <= k < |kept|
        ensures ParseQuery(q, dec)[k] == (kept[k].0, ToStr(kept[k].1, showNum))
      {
        PairSplit(enc(kept[k].0), enc(ToStr(kept[k].1, showNum)));
      }
    }
  }

  lemma PairSplit(a: string, b: string)
    requires '=' !in a && '=' !in b
    ensures Split(a + "=" + b, '=') == [a, b]
  {
    SplitJoin([a, b], '=');
    assert Join([a, b], "=") == a + "=" + b by {
      assert Join([b], "=") == b;
      assert [a, b][1..] == [b];
    }
  }
}
