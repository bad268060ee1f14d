/** parse-input.js: the reader of R-style option values (`NULL`, `NA`, `T`, `F`, numbers,
    `c(...)` vectors and `list(name=value, ...)` lists) and the grouping of model
    specifier rows into per-model option maps. */
module ParseInput {
  import opened Base
  import opened Strings
  import opened JsValue
  import opened Collections

  // ---------------------------------------------------------------- regular expressions

  /** The index of the first line terminator at or after i, or |s|: the end of the line
      that a `.*` or `.+` starting at i can consume. */
  function LineEnd(s: string, i: nat): (e: nat)
    requires i <= |s|
    ensures i <= e <= |s|
    decreases |s| - i
  {
    if i == |s| || IsLineTerminator(s[i]) then i else LineEnd(s, i + 1)
  }

  /** LineEnd stops at the first line terminator: none before it, one at it unless the text ends. */
  lemma {:induction false} LineEndMeaning(s: string, i: nat)
    requires i <= |s|
    ensures forall k :: i <= k < LineEnd(s, i) ==> !IsLineTerminator(s[k])
    ensures LineEnd(s, i) < |s| ==> IsLineTerminator(s[LineEnd(s, i)])
    decreases |s| - i
  {
    if i < |s| && !IsLineTerminator(s[i]) {
      LineEndMeaning(s, i + 1);
    }
  }

  /** On a text without line terminators from i on, the line runs to the end. */
  lemma {:induction false} LineEndAll(s: string, i: nat)
    requires i <= |s|
    requires forall k :: i <= k < |s| ==> !IsLineTerminator(s[k])
    ensures LineEnd(s, i) == |s|
    decreases |s| - i
  {
    if i < |s| {
      LineEndAll(s, i + 1);
    }
  }

  /** The position of the last ")" in t. */
  function LastClose(t: string): (k: Option<nat>)
    ensures k.Some? ==> k.value < |t| && t[k.value] == ')'
  {
    if t == [] then None
    else if t[|t| - 1] == ')' then Some(|t| - 1)
    else LastClose(t[..|t| - 1])
  }

  /** LastClose finds the LAST ")", and finds none only when there is none. */
  lemma {:induction false} LastCloseMeaning(t: string)
    ensures LastClose(t).Some? ==> forall m :: LastClose(t).value < m < |t| ==> t[m] != ')'
    ensures LastClose(t).None? ==> forall m :: 0 <= m < |t| ==> t[m] != ')'
  {
    if t != [] && t[|t| - 1] != ')' {
      var u := t[..|t| - 1];
      LastCloseMeaning(u);
      assert forall m :: 0 <= m < |u| ==> u[m] == t[m];
    }
  }

  /** The group captured by /c\((.*)\)/ (open = "c(") or /list\((.*)\)/ (open = "list("),
      searching from index i: the leftmost `open` that has a ")" later on its line, and
      everything after it up to the last ")" on that line. */
  function Capture(s: string, open: string, i: nat): (c: Option<string>)
    requires i <= |s| && |open| > 0
    ensures c.Some? ==> |c.value| + |open| + 1 <= |s| - i
    decreases |s| - i
  {
    if i + |open| > |s| then None
    else if s[i..i + |open|] == open then
      var st := i + |open|;
      var e := LineEnd(s, st);
      match LastClose(s[st..e])
      case Some(k) => Some(s[st..st + k])
      case None => Capture(s, open, i + 1)
    else Capture(s, open, i + 1)
  }

  /** Wrapping a one-line body as open + body + ")" and capturing gives the body back. */
  lemma CaptureWrapped(open: string, body: string)
    requires |open| > 0
    requires forall k :: 0 <= k < |body| ==> !IsLineTerminator(body[k])
    ensures Capture(open + body + ")", open, 0) == Some(body)
  {
    var s := open + body + ")";
    assert s[0..|open|] == open;
    forall k | |open| <= k < |s| ensures !IsLineTerminator(s[k]) {
      if k < |s| - 1 {
        assert s[k] == body[k - |open|];
      }
    }
    LineEndAll(s, |open|);
    assert s[|open|..|s|] == body + ")";
    assert LastClose(body + ")") == Some(|body|);
    assert s[|open|..|open| + |body|] == body;
  }

  /** The position of the last "=" of `seg` below n that has a character before it. */
  function LastEqualsBelow(seg: string, n: nat): (e: Option<nat>)
    requires n <= |seg|
    ensures e.Some? ==> 1 <= e.value < n && seg[e.value] == '='
  {
    if n <= 1 then None
    else if seg[n - 1] == '=' then Some(n - 1)
    else LastEqualsBelow(seg, n - 1)
  }

  /** LastEqualsBelow finds the last "=" in [1, n), and finds none only when there is none. */
  lemma {:induction false} LastEqualsBelowMeaning(seg: string, n: nat)
    requires n <= |seg|
    ensures LastEqualsBelow(seg, n).Some? ==> forall m :: LastEqualsBelow(seg, n).value < m < n ==> seg[m] != '='
    ensures LastEqualsBelow(seg, n).None? ==> forall m :: 1 <= m < n ==> seg[m] != '='
  {
    if n > 1 && seg[n - 1] != '=' {
      LastEqualsBelowMeaning(seg, n - 1);
    }
  }

  /** Where /(.+)=(.+)/ splits one line: the last "=" with a character on each side. */
  function SplitPoint(seg: string): (e: Option<nat>)
    ensures e.Some? ==> 1 <= e.value < |seg| - 1 && seg[e.value] == '='
  {
    if |seg| < 3 then None else LastEqualsBelow(seg, |seg| - 1)
  }

  /** The greedy first group makes the split point the LAST admissible "=". */
  lemma SplitPointMeaning(seg: string)
    ensures SplitPoint(seg).Some? ==> forall m :: SplitPoint(seg).value < m < |seg| - 1 ==> seg[m] != '='
    ensures SplitPoint(seg).None? ==> forall m :: 1 <= m < |seg| - 1 ==> seg[m] != '='
  {
    if |seg| >= 3 {
      LastEqualsBelowMeaning(seg, |seg| - 1);
    }
  }

  /** The two groups of the first match of /(.+)=(.+)/ in s from index a: the first line that
      has an "=" with a character on each side, split at the last such "=". */
  function Assignment(s: string, a: nat): (r: Option<(string, string)>)
    requires a <= |s|
    ensures r.Some? ==> |r.value.0| >= 1 && |r.value.1| >= 1 && |r.value.0| + |r.value.1| + 1 <= |s| - a
    decreases |s| - a
  {
    var e := LineEnd(s, a);
    var seg := s[a..e];
    match SplitPoint(seg)
    case Some(k) => Some((seg[..k], seg[k + 1..]))
    case None => if e == |s| then None else Assignment(s, e + 1)
  }

  /** A one-line item name=value whose value holds no "=" splits into exactly that name and value. */
  lemma AssignmentOfPair(name: string, value: string)
    requires |name| >= 1 && |value| >= 1
    requires forall k :: 0 <= k < |name| ==> !IsLineTerminator(name[k])
    requires forall k :: 0 <= k < |value| ==> !IsLineTerminator(value[k]) && value[k] != '='
    ensures Assignment(name + "=" + value, 0) == Some((name, value))
  {
    var s := name + "=" + value;
    PairShape(name, value);
    AssignmentOneLine(s, |name|);
    assert s[..|name|] == name && s[|name| + 1..] == value;
  }

  /** name=value is one line, split at the "=" written between them. */
  lemma PairShape(name: string, value: string)
    requires |name| >= 1 && |value| >= 1
    requires forall k :: 0 <= k < |name| ==> !IsLineTerminator(name[k])
    requires forall k :: 0 <= k < |value| ==> !IsLineTerminator(value[k]) && value[k] != '='
    ensures LineEnd(name + "=" + value, 0) == |name + "=" + value|
    ensures SplitPoint(name + "=" + value) == Some(|name|)
  {
    var s := name + "=" + value;
    PairChars(name, value);
    LineEndAll(s, 0);
    LastEqualsAt(s, |s| - 1, |name|);
  }

  /** On a single line, the groups are the text either side of the split point. */
  lemma AssignmentOneLine(s: string, k: nat)
    requires LineEnd(s, 0) == |s| && SplitPoint(s) == Some(k)
    ensures Assignment(s, 0) == Some((s[..k], s[k + 1..]))
  {
    assert s[0..|s|] == s;
  }

  /** The characters of name=value: no line terminator, and no "=" after the one written. */
  lemma PairChars(name: string, value: string)
    requires forall k :: 0 <= k < |name| ==> !IsLineTerminator(name[k])
    requires forall k :: 0 <= k < |value| ==> !IsLineTerminator(value[k]) && value[k] != '='
    ensures var s := name + "=" + value;
      && s[|name|] == '='
      && (forall k :: 0 <= k < |s| ==> !IsLineTerminator(s[k]))
      && (forall k :: |name| < k < |s| ==> s[k] != '=')
  {
    var s := name + "=" + value;
    forall k | 0 <= k < |s| ensures !IsLineTerminator(s[k]) && (k > |name| ==> s[k] != '=') {
      if k < |name| {
        assert s[k] == name[k];
      } else if k > |name| {
        assert s[k] == value[k - |name| - 1];
      }
    }
  }

  lemma {:induction false} LastEqualsAt(seg: string, n: nat, p: nat)
    requires 1 <= p < n <= |seg| && seg[p] == '='
    requires forall m :: p < m < n ==> seg[m] != '='
    ensures LastEqualsBelow(seg, n) == Some(p)
    decreases n
  {
    if n - 1 > p {
      LastEqualsAt(seg, n - 1, p);
    }
  }

  // ---------------------------------------------------------------- ValueParser

  predicate IsNullWord(s: string) {
    s == "" || s == "NULL" || s == "NA"
  }

  predicate IsTrueWord(s: string) {
    s == "TRUE" || s == "T"
  }

  predicate IsFalseWord(s: string) {
    s == "FALSE" || s == "F"
  }

  /** parseValue on the text String(value): `toNumber` is the numeric conversion `+s`,
      None where it gives NaN. The vector and list tests and the captures that parseVector
      and parseList take use the same regular expressions, so the group is computed once. */
  function ParseText(raw: string, toNumber: string -> Option<real>): Result<Value>
    decreases |raw|, 2
  {
    var s := Trim(raw);
    if IsNullWord(s) then Ok(Null)
    else if IsTrueWord(s) then Ok(Bool(true))
    else if IsFalseWord(s) then Ok(Bool(false))
    else if toNumber(s).Some? then Ok(Num(toNumber(s).value))
    else match Capture(s, "c(", 0)
      case Some(body) => ParseVector(body, |raw|, toNumber)
      case None =>
        match Capture(s, "list(", 0)
        case Some(body) => ParseList(body, |raw|, toNumber)
        case None => Ok(Str(s))
  }

  /** parseValue as the callback of the vector and list readers, on texts shorter than `bound`. */
  function PieceParser(bound: nat, toNumber: string -> Option<real>): string --> Result<Value>
    decreases bound, 0
  {
    (p: string) requires |p| < bound => ParseText(p, toNumber)
  }

  /** parseVector on the captured group `body`: split on "," and each piece parsed. */
  function ParseVector(body: string, bound: nat, toNumber: string -> Option<real>): Result<Value>
    requires |body| < bound
    decreases bound, 1
  {
    var items :- MapAll(Split(body, ','), PieceParser(bound, toNumber));
    Ok(Arr(items))
  }

  /** parseList on the captured group `body`: split on ","; each item's trimmed name takes its
      parsed value. */
  function ParseList(body: string, bound: nat, toNumber: string -> Option<real>): Result<Value>
    requires |body| < bound
    decreases bound, 1
  {
    var fields :- ListFields(Split(body, ','), bound, PieceParser(bound, toNumber));
    Ok(Obj(fields))
  }

  /** `xs.map(f)` where f may throw: the first failure is the result. */
  function MapAll<A, B>(xs: seq<A>, f: A --> Result<B>): Result<seq<B>>
    requires forall k :: 0 <= k < |xs| ==> f.requires(xs[k])
  {
    if xs == [] then Ok([])
    else
      var pre :- MapAll(xs[..|xs| - 1], f);
      var v :- f(xs[|xs| - 1]);
      Ok(pre + [v])
  }

  /** The name/value pair of a list item. */
  function ItemParts(item: string): (r: Option<(string, string)>)
    ensures r.Some? ==> |r.value.1| < |item|
  {
    Assignment(Trim(item), 0)
  }

  /** The key an item of a list writes: its name part, trimmed. */
  function ItemName(item: string): string
    requires ItemParts(item).Some?
  {
    Trim(ItemParts(item).value.0)
  }

  /** The name (trimmed) and value part of every item, or None when some item has no assignment. */
  function ItemPairs(items: seq<string>): (r: Option<seq<(string, string)>>)
    ensures r.Some? <==> forall k :: 0 <= k < |items| ==> ItemParts(items[k]).Some?
    ensures r.Some? ==> |r.value| == |items|
    ensures r.Some? ==> forall k :: 0 <= k < |items| ==> r.value[k] == (ItemName(items[k]), ItemParts(items[k]).value.1)
  {
    if forall k :: 0 <= k < |items| ==> ItemParts(items[k]).Some? then
      Some(seq(|items|, k requires 0 <= k < |items| => (ItemName(items[k]), ItemParts(items[k]).value.1)))
    else None
  }

  /** The reduce of parseList: an item without an assignment throws, because its missing name
      is then trimmed; so does a value whose own parse throws. Both throw the same TypeError,
      so which item throws first does not show in the result. */
  function ListFields(items: seq<string>, bound: nat, parse: string --> Result<Value>): Result<map<string, Value>>
    requires forall k :: 0 <= k < |items| ==> |items[k]| < bound
    requires forall t: string :: |t| < bound ==> parse.requires(t)
  {
    match ItemPairs(items)
    case None => Err(TypeError)
    case Some(pairs) =>
      assert forall k :: 0 <= k < |pairs| ==> |pairs[k].1| < |items[k]|;
      Fields(pairs, parse)
  }

  /** `list[name] = parse(value)` for each pair in turn: later pairs overwrite earlier ones. */
  function Fields(pairs: seq<(string, string)>, parse: string --> Result<Value>): Result<map<string, Value>>
    requires forall k :: 0 <= k < |pairs| ==> parse.requires(pairs[k].1)
  {
    if pairs == [] then Ok(map[])
    else
      var pre :- Fields(pairs[..|pairs| - 1], parse);
      var v :- parse(pairs[|pairs| - 1].1);
      Ok(pre[pairs[|pairs| - 1].0 := v])
  }

  /** parseValue(value) = parse of String(value); `showNum` renders numbers as String() does. */
  function ParseValue(value: Value, toNumber: string -> Option<real>, showNum: real -> string): Result<Value> {
    ParseText(ToStr(value, showNum), toNumber)
  }

  // ---------------------------------------------------------------- ValueParser properties

  /** null exactly for "", "NULL" and "NA" after trimming. */
  lemma ParseNull(raw: string, toNumber: string -> Option<real>)
    ensures ParseText(raw, toNumber) == Ok(Null) <==> IsNullWord(Trim(raw))
  {
  }

  /** true exactly for "TRUE" and "T", false exactly for "FALSE" and "F", after trimming. */
  lemma ParseBool(raw: string, toNumber: string -> Option<real>)
    ensures ParseText(raw, toNumber) == Ok(Bool(true)) <==> IsTrueWord(Trim(raw))
    ensures ParseText(raw, toNumber) == Ok(Bool(false)) <==> IsFalseWord(Trim(raw))
  {
  }

  /** A number exactly when the trimmed text is no keyword and converts; keywords win over the
      numeric test, and the numeric test wins over vector and list detection. */
  lemma ParseNumber(raw: string, toNumber: string -> Option<real>, n: real)
    ensures ParseText(raw, toNumber) == Ok(Num(n)) <==>
      var s := Trim(raw);
      !IsNullWord(s) && !IsTrueWord(s) && !IsFalseWord(s) && toNumber(s) == Some(n)
  {
  }

  /** A string result is the trimmed text itself, which is no keyword, no number, no vector and no list. */
  lemma ParseString(raw: string, toNumber: string -> Option<real>, t: string)
    ensures ParseText(raw, toNumber) == Ok(Str(t)) <==>
      var s := Trim(raw);
      && t == s && !IsNullWord(s) && !IsTrueWord(s) && !IsFalseWord(s) && toNumber(s).None?
      && Capture(s, "c(", 0).None? && Capture(s, "list(", 0).None?
  {
  }

  /** A mapped sequence holds one element per input, and its k-th element is f of input k. */
  lemma {:induction false} MapAllAt<A, B>(xs: seq<A>, f: A --> Result<B>, k: nat)
    requires forall k :: 0 <= k < |xs| ==> f.requires(xs[k])
    requires MapAll(xs, f).Ok? && k < |xs|
    ensures |MapAll(xs, f).value| == |xs|
    ensures f(xs[k]) == Ok(MapAll(xs, f).value[k])
    decreases |xs|
  {
    var pre := xs[..|xs| - 1];
    if k < |pre| {
      MapAllAt(pre, f, k);
    } else if pre != [] {
      MapAllAt(pre, f, 0);
    }
  }

  /** Once a prefix fails, the whole map fails the same way. */
  lemma {:induction false} MapAllErrPrefix<A, B>(xs: seq<A>, f: A --> Result<B>, n: nat)
    requires forall k :: 0 <= k < |xs| ==> f.requires(xs[k])
    requires n <= |xs| && MapAll(xs[..n], f).Err?
    ensures MapAll(xs, f) == MapAll(xs[..n], f)
    decreases |xs|
  {
    if n < |xs| {
      assert xs[..|xs| - 1][..n] == xs[..n];
      MapAllErrPrefix(xs[..|xs| - 1], f, n);
    } else {
      assert xs[..n] == xs;
    }
  }

  /** One more input mapped: its result appended, or its error. */
  lemma MapAllStep<A, B>(xs: seq<A>, f: A --> Result<B>, i: nat, out: seq<B>)
    requires forall k :: 0 <= k < |xs| ==> f.requires(xs[k])
    requires i < |xs| && MapAll(xs[..i], f) == Ok(out)
    ensures f(xs[i]).Ok? ==> MapAll(xs[..i + 1], f) == Ok(out + [f(xs[i]).value])
    ensures f(xs[i]).Err? ==> MapAll(xs[..i + 1], f) == Err(f(xs[i]).error)
  {
    assert xs[..i + 1][..i] == xs[..i];
  }

  /** A map fails exactly when f fails on one of the inputs. */
  lemma {:induction false} MapAllErr<A, B>(xs: seq<A>, f: A --> Result<B>)
    requires forall k :: 0 <= k < |xs| ==> f.requires(xs[k])
    ensures MapAll(xs, f).Err? <==> exists k :: 0 <= k < |xs| && f(xs[k]).Err?
    decreases |xs|
  {
    if xs != [] {
      var pre := xs[..|xs| - 1];
      MapAllErr(pre, f);
      if k :| 0 <= k < |pre| && f(pre[k]).Err? {
        assert xs[k] == pre[k];
      }
      if k :| 0 <= k < |xs| && f(xs[k]).Err? {
        if k < |pre| {
          assert xs[k] == pre[k];
        }
      }
    }
  }

  /** A vector written out as c(p1,...,pn) parses to the array of the parses of p1 ... pn,
      and fails exactly when one of them fails. */
  lemma ParseVectorOfJoin(parts: seq<string>, toNumber: string -> Option<real>)
    requires |parts| >= 1
    requires forall i :: 0 <= i < |parts| ==> ',' !in parts[i]
    requires forall i, k :: 0 <= i < |parts| && 0 <= k < |parts[i]| ==> !IsLineTerminator(parts[i][k])
    requires toNumber("c(" + Join(parts, ",") + ")").None?
    ensures var r := ParseText("c(" + Join(parts, ",") + ")", toNumber);
      && (r.Err? <==> exists k :: 0 <= k < |parts| && ParseText(parts[k], toNumber).Err?)
      && (r.Ok? ==>
            && r.value.Arr? && |r.value.items| == |parts|
            && forall k :: 0 <= k < |parts| ==> ParseText(parts[k], toNumber) == Ok(r.value.items[k]))
  {
    var s := "c(" + Join(parts, ",") + ")";
    var r := ParseText(s, toNumber);
    var f := PieceParser(|s|, toNumber);
    ParseTextOfVector(parts, toNumber);
    assert forall k :: 0 <= k < |parts| ==> f.requires(parts[k]) && f(parts[k]) == ParseText(parts[k], toNumber);
    MapAllErr(parts, f);
    if r.Ok? {
      var items := MapAll(parts, f).value;
      assert r.value == Arr(items);
      MapAllAt(parts, f, 0);
      forall k | 0 <= k < |parts| ensures ParseText(parts[k], toNumber) == Ok(items[k]) {
        MapAllAt(parts, f, k);
      }
    }
  }

  /** The text c(p1,...,pn) is read as a vector whose pieces are p1 ... pn. */
  lemma ParseTextOfVector(parts: seq<string>, toNumber: string -> Option<real>)
    requires |parts| >= 1
    requires forall i :: 0 <= i < |parts| ==> ',' !in parts[i]
    requires forall i, k :: 0 <= i < |parts| && 0 <= k < |parts[i]| ==> !IsLineTerminator(parts[i][k])
    requires toNumber("c(" + Join(parts, ",") + ")").None?
    ensures var s := "c(" + Join(parts, ",") + ")";
      (forall k :: 0 <= k < |parts| ==> |parts[k]| < |s|) &&
      ParseText(s, toNumber) == (var items :- MapAll(parts, PieceParser(|s|, toNumber)); Ok(Arr(items)))
  {
    var body := Join(parts, ",");
    var s := "c(" + body + ")";
    forall k | 0 <= k < |parts| ensures |parts[k]| < |s| {
      JoinPartLength(parts, ",", k);
    }
    assert Capture(s, "c(", 0) == Some(body) by {
      forall k | 0 <= k < |body| ensures !IsLineTerminator(body[k]) {
        JoinChars(parts, ",", body[k]);
      }
      CaptureWrapped("c(", body);
    }
    assert Trim(s) == s by {
      assert s[0] == 'c' && s[|s| - 1] == ')';
      TrimOfTrimmed(s);
    }
    assert !IsNullWord(s) && !IsTrueWord(s) && !IsFalseWord(s) by {
      assert s[0] == 'c';
    }
    assert ParseText(s, toNumber) == ParseVector(body, |s|, toNumber);
    SplitJoin(parts, ',');
  }

  /** Capture moves past the positions where `open` does not occur. */
  lemma {:induction false} CaptureSkip(s: string, open: string, i: nat, j: nat)
    requires i <= j <= |s| && |open| > 0
    requires forall m :: i <= m < j ==> !OccursAt(s, open, m)
    ensures Capture(s, open, i) == Capture(s, open, j)
    decreases j - i
  {
    if i < j {
      assert !OccursAt(s, open, i);
      CaptureSkip(s, open, i + 1, j);
    }
  }

  /** The text list(i1,...,in) whose body holds no "c(" is read as a list whose items are
      i1 ... in: the vector test, tried first, does not match it. */
  lemma ParseTextOfList(items: seq<string>, toNumber: string -> Option<real>)
    requires |items| >= 1
    requires forall i :: 0 <= i < |items| ==> ',' !in items[i]
    requires forall i, k :: 0 <= i < |items| && 0 <= k < |items[i]| ==> !IsLineTerminator(items[i][k])
    requires forall m :: 0 <= m < |Join(items, ",")| ==> !OccursAt(Join(items, ","), "c(", m)
    requires toNumber("list(" + Join(items, ",") + ")").None?
    ensures var s := "list(" + Join(items, ",") + ")";
      (forall k :: 0 <= k < |items| ==> |items[k]| < |s|) &&
      ParseText(s, toNumber) == (var fields :- ListFields(items, |s|, PieceParser(|s|, toNumber)); Ok(Obj(fields)))
  {
    var body := Join(items, ",");
    var s := "list(" + body + ")";
    forall k | 0 <= k < |items| ensures |items[k]| < |s| {
      JoinPartLength(items, ",", k);
    }
    NoVectorInList(body);
    assert Capture(s, "list(", 0) == Some(body) by {
      forall k | 0 <= k < |body| ensures !IsLineTerminator(body[k]) {
        JoinChars(items, ",", body[k]);
      }
      CaptureWrapped("list(", body);
    }
    assert Trim(s) == s by {
      assert s[0] == 'l' && s[|s| - 1] == ')';
      TrimOfTrimmed(s);
    }
    assert !IsNullWord(s) && !IsTrueWord(s) && !IsFalseWord(s) by {
      assert s[0] == 'l';
    }
    assert ParseText(s, toNumber) == ParseList(body, |s|, toNumber);
    SplitJoin(items, ',');
  }

  /** With no "c(" in its body, list(...) has no "c(" at all, so the vector test fails. */
  lemma NoVectorInList(body: string)
    requires forall m :: 0 <= m < |body| ==> !OccursAt(body, "c(", m)
    ensures Capture("list(" + body + ")", "c(", 0).None?
  {
    var s := "list(" + body + ")";
    forall m | 0 <= m < |s| ensures !OccursAt(s, "c(", m) {
      NoVectorAt(body, m);
    }
    CaptureSkip(s, "c(", 0, |s|);
  }

  lemma NoVectorAt(body: string, m: nat)
    requires forall m :: 0 <= m < |body| ==> !OccursAt(body, "c(", m)
    ensures !OccursAt("list(" + body + ")", "c(", m)
  {
    var s := "list(" + body + ")";
    if m + 2 <= |s| {
      var w := s[m..m + 2];
      assert w[0] == s[m] && w[1] == s[m + 1];
      if m < 5 {
        assert s[m] == "list("[m];
      } else if m + 2 < |s| {
        assert s[m] == body[m - 5] && s[m + 1] == body[m - 4];
        assert !OccursAt(body, "c(", m - 5);
        assert body[m - 5..m - 3][0] == body[m - 5] && body[m - 5..m - 3][1] == body[m - 4];
      } else {
        assert s[m + 1] == ')';
      }
    }
  }

  /** A list written out as list(i1,...,in) fails exactly when an item has no assignment or
      the parse of an item's value fails; otherwise its keys are the items' trimmed names, and
      a name holds the parse of the value of the last item carrying it. */
  lemma ParseListOfJoin(items: seq<string>, toNumber: string -> Option<real>)
    requires |items| >= 1
    requires forall i :: 0 <= i < |items| ==> ',' !in items[i]
    requires forall i, k :: 0 <= i < |items| && 0 <= k < |items[i]| ==> !IsLineTerminator(items[i][k])
    requires forall m :: 0 <= m < |Join(items, ",")| ==> !OccursAt(Join(items, ","), "c(", m)
    requires toNumber("list(" + Join(items, ",") + ")").None?
    ensures var r := ParseText("list(" + Join(items, ",") + ")", toNumber);
      && (r.Err? <==>
            || (exists k :: 0 <= k < |items| && ItemParts(items[k]).None?)
            || (exists k :: 0 <= k < |items| && ItemParts(items[k]).Some?
                             && ParseText(ItemParts(items[k]).value.1, toNumber).Err?))
      && (r.Ok? ==>
            && r.value.Obj?
            && (forall k :: 0 <= k < |items| ==> ItemParts(items[k]).Some?)
            && (forall name :: name in r.value.fields <==> exists i :: 0 <= i < |items| && ItemName(items[i]) == name)
            && (forall i :: 0 <= i < |items| && (forall j :: i < j < |items| ==> ItemName(items[j]) != ItemName(items[i]))
                  ==> ParseText(ItemParts(items[i]).value.1, toNumber) == Ok(r.value.fields[ItemName(items[i])])))
  {
    var s := "list(" + Join(items, ",") + ")";
    var f := PieceParser(|s|, toNumber);
    ParseTextOfList(items, toNumber);
    forall k | 0 <= k < |items| && ItemParts(items[k]).Some?
      ensures f.requires(ItemParts(items[k]).value.1)
      && f(ItemParts(items[k]).value.1) == ParseText(ItemParts(items[k]).value.1, toNumber)
    {
    }
    ListFieldsErr(items, |s|, f);
    var r := ParseText(s, toNumber);
    if r.Ok? {
      var fields := ListFields(items, |s|, f).value;
      assert r.value == Obj(fields);
      forall name ensures name in fields <==> exists i :: 0 <= i < |items| && ItemName(items[i]) == name {
        ListFieldsKeys(items, |s|, f, name);
      }
      forall i | 0 <= i < |items| && (forall j :: i < j < |items| ==> ItemName(items[j]) != ItemName(items[i]))
        ensures ParseText(ItemParts(items[i]).value.1, toNumber) == Ok(fields[ItemName(items[i])])
      {
        ListFieldsLastWins(items, |s|, f, i);
      }
    }
  }

  /** The vector test is not anchored: whatever comes before the first "c(" is ignored, and
      the text pre + c(p1,...,pn) is read as a vector whose pieces are p1 ... pn. */
  lemma ParseTextOfPrefixedVector(pre: string, parts: seq<string>, toNumber: string -> Option<real>)
    requires pre == [] || !IsSpace(pre[0])
    requires forall m :: 0 <= m < |pre| ==> !OccursAt(pre, "c(", m)
    requires |parts| >= 1
    requires forall i :: 0 <= i < |parts| ==> ',' !in parts[i]
    requires forall i, k :: 0 <= i < |parts| && 0 <= k < |parts[i]| ==> !IsLineTerminator(parts[i][k])
    requires toNumber(pre + "c(" + Join(parts, ",") + ")").None?
    ensures var s := pre + "c(" + Join(parts, ",") + ")";
      (forall k :: 0 <= k < |parts| ==> |parts[k]| < |s|) &&
      ParseText(s, toNumber) == (var items :- MapAll(parts, PieceParser(|s|, toNumber)); Ok(Arr(items)))
  {
    var body := Join(parts, ",");
    var s := pre + "c(" + body + ")";
    forall k | 0 <= k < |parts| ensures |parts[k]| < |s| {
      JoinPartLength(parts, ",", k);
    }
    forall k | 0 <= k < |body| ensures !IsLineTerminator(body[k]) {
      JoinChars(parts, ",", body[k]);
    }
    PrefixedCapture(pre, body);
    assert Trim(s) == s by {
      assert s[0] == (if pre == [] then 'c' else pre[0]);
      assert s[|s| - 1] == ')';
      TrimOfTrimmed(s);
    }
    assert !IsNullWord(s) && !IsTrueWord(s) && !IsFalseWord(s) by {
      assert s[|s| - 1] == ')';
    }
    assert ParseText(s, toNumber) == ParseVector(body, |s|, toNumber);
    SplitJoin(parts, ',');
  }

  /** The capture of /c\((.*)\)/ skips a prefix that holds no "c(". */
  lemma PrefixedCapture(pre: string, body: string)
    requires forall m :: 0 <= m < |pre| ==> !OccursAt(pre, "c(", m)
    requires forall k :: 0 <= k < |body| ==> !IsLineTerminator(body[k])
    ensures Capture(pre + "c(" + body + ")", "c(", 0) == Some(body)
  {
    PrefixSkipped(pre, body);
    OpenAfterPrefix(pre, body);
  }

  /** At the end of the prefix, "c(" opens a one-line body closed by the final ")". */
  lemma OpenAfterPrefix(pre: string, body: string)
    requires forall k :: 0 <= k < |body| ==> !IsLineTerminator(body[k])
    ensures Capture(pre + "c(" + body + ")", "c(", |pre|) == Some(body)
  {
    var s := pre + "c(" + body + ")";
    var st := |pre| + 2;
    assert s[|pre|..st] == "c(";
    assert s[st..|s|] == body + ")";
    forall k | st <= k < |s| ensures !IsLineTerminator(s[k]) {
      assert s[k] == (body + ")")[k - st];
    }
    LineEndAll(s, st);
    assert LastClose(body + ")") == Some(|body|);
    assert s[st..st + |body|] == body;
  }

  lemma PrefixSkipped(pre: string, body: string)
    requires forall m :: 0 <= m < |pre| ==> !OccursAt(pre, "c(", m)
    ensures Capture(pre + "c(" + body + ")", "c(", 0) == Capture(pre + "c(" + body + ")", "c(", |pre|)
  {
    var s := pre + "c(" + body + ")";
    forall m | 0 <= m < |pre| ensures !OccursAt(s, "c(", m) {
      PrefixPosition(pre, body, m);
    }
    CaptureSkip(s, "c(", 0, |pre|);
  }

  lemma PrefixPosition(pre: string, body: string, m: nat)
    requires forall m :: 0 <= m < |pre| ==> !OccursAt(pre, "c(", m)
    requires m < |pre|
    ensures !OccursAt(pre + "c(" + body + ")", "c(", m)
  {
    var s := pre + "c(" + body + ")";
    var w := s[m..m + 2];
    assert w[0] == s[m] && w[1] == s[m + 1];
    if m + 1 < |pre| {
      assert !OccursAt(pre, "c(", m);
      assert pre[m..m + 2][0] == pre[m] == s[m] && pre[m..m + 2][1] == pre[m + 1] == s[m + 1];
    } else {
      assert s[m + 1] == 'c';
    }
  }

  /** A text without the letter c holds no "c(". */
  lemma NoOpenWithoutC(t: string)
    requires 'c' !in t
    ensures forall m :: 0 <= m < |t| ==> !OccursAt(t, "c(", m)
  {
    forall m | 0 <= m < |t| ensures !OccursAt(t, "c(", m) {
      if m + 2 <= |t| {
        assert t[m..m + 2][0] == t[m] && t[m] in t;
      }
    }
  }

  /** A text with a prefix before "c(" is still a vector: "abc(1)" is the vector [1]. */
  lemma VectorAfterPrefix(toNumber: string -> Option<real>)
    requires toNumber("abc(1)").None? && toNumber("1") == Some(1.0)
    ensures ParseText("abc(1)", toNumber) == Ok(Arr([Num(1.0)]))
  {
    assert Join(["1"], ",") == "1";
    assert "ab" + "c(" + "1" + ")" == "abc(1)";
    NoOpenWithoutC("ab");
    ParseTextOfPrefixedVector("ab", ["1"], toNumber);
    ReadsOne(toNumber);
    var f := PieceParser(6, toNumber);
    var xs := ["1"];
    assert f.requires(xs[0]) && f(xs[0]) == Ok(Num(1.0));
    assert xs[..0] == [];
    assert MapAll(xs[..0], f) == Ok([]);
    assert [] + [Num(1.0)] == [Num(1.0)];
  }

  /** The vector test is tried before the list test: a list holding a vector is read as a
      vector, from the first "c(" to the last ")": list(a=c(1,2)) is the vector [1, "2)"]. */
  lemma ListInsideVector(toNumber: string -> Option<real>)
    requires toNumber("list(a=c(1,2))").None? && toNumber("1") == Some(1.0) && toNumber("2)").None?
    ensures ParseText("list(a=c(1,2))", toNumber) == Ok(Arr([Num(1.0), Str("2)")]))
  {
    assert Join(["1", "2)"], ",") == "1,2)";
    assert "list(a=" + "c(" + "1,2)" + ")" == "list(a=c(1,2))";
    NoOpenWithoutC("list(a=");
    ParseTextOfPrefixedVector("list(a=", ["1", "2)"], toNumber);
    ReadsPieces(toNumber);
  }

  /** The pieces "1" and "2)" of list(a=c(1,2)) read as 1 and "2)". */
  lemma ReadsPieces(toNumber: string -> Option<real>)
    requires toNumber("1") == Some(1.0) && toNumber("2)").None?
    ensures MapAll(["1", "2)"], PieceParser(14, toNumber)) == Ok([Num(1.0), Str("2)")])
  {
    ReadsOne(toNumber);
    ReadsTwoParen(toNumber);
    var f := PieceParser(14, toNumber);
    var xs := ["1", "2)"];
    assert f.requires(xs[0]) && f(xs[0]) == Ok(Num(1.0));
    assert f.requires(xs[1]) && f(xs[1]) == Ok(Str("2)"));
    var ys := ["1"];
    assert ys[..0] == [];
    assert MapAll(ys[..0], f) == Ok([]);
    assert [] + [Num(1.0)] == [Num(1.0)];
    assert MapAll(ys, f) == Ok([Num(1.0)]);
    assert xs[..1] == ys;
    assert [Num(1.0)] + [Str("2)")] == [Num(1.0), Str("2)")];
  }

  lemma ReadsOne(toNumber: string -> Option<real>)
    requires toNumber("1") == Some(1.0)
    ensures ParseText("1", toNumber) == Ok(Num(1.0))
  {
    assert Trim("1") == "1" by { TrimOfTrimmed("1"); }
  }

  lemma ReadsTwoParen(toNumber: string -> Option<real>)
    requires toNumber("2)").None?
    ensures ParseText("2)", toNumber) == Ok(Str("2)"))
  {
    assert Trim("2)") == "2)" by { TrimOfTrimmed("2)"); }
  }

  /** The fields fail exactly when the parse of one of the values fails. */
  lemma {:induction false} FieldsErr(pairs: seq<(string, string)>, parse: string --> Result<Value>)
    requires forall k :: 0 <= k < |pairs| ==> parse.requires(pairs[k].1)
    ensures Fields(pairs, parse).Err? <==> exists k :: 0 <= k < |pairs| && parse(pairs[k].1).Err?
    decreases |pairs|
  {
    if pairs != [] {
      var pre := pairs[..|pairs| - 1];
      FieldsErr(pre, parse);
      if k :| 0 <= k < |pre| && parse(pre[k].1).Err? {
        assert pairs[k] == pre[k];
      }
      if k :| 0 <= k < |pairs| && parse(pairs[k].1).Err? {
        if k < |pre| {
          assert pairs[k] == pre[k];
        }
      }
    }
  }

  /** The keys of the fields are exactly the names of the pairs. */
  lemma {:induction false} FieldsKeys(pairs: seq<(string, string)>, parse: string --> Result<Value>, name: string)
    requires forall k :: 0 <= k < |pairs| ==> parse.requires(pairs[k].1)
    requires Fields(pairs, parse).Ok?
    ensures name in Fields(pairs, parse).value <==> exists i :: 0 <= i < |pairs| && pairs[i].0 == name
    decreases |pairs|
  {
    if pairs != [] {
      var pre := pairs[..|pairs| - 1];
      FieldsKeys(pre, parse, name);
      if i :| 0 <= i < |pre| && pre[i].0 == name {
        assert pairs[i] == pre[i];
      }
      if i :| 0 <= i < |pairs| && pairs[i].0 == name {
        if i < |pre| {
          assert pairs[i] == pre[i];
        }
      }
    }
  }

  /** The value under a name is the parse of the value of the LAST pair with that name. */
  lemma {:induction false} FieldsLastWins(pairs: seq<(string, string)>, parse: string --> Result<Value>, i: nat)
    requires forall k :: 0 <= k < |pairs| ==> parse.requires(pairs[k].1)
    requires Fields(pairs, parse).Ok? && i < |pairs|
    requires forall j :: i < j < |pairs| ==> pairs[j].0 != pairs[i].0
    ensures pairs[i].0 in Fields(pairs, parse).value
    ensures parse(pairs[i].1) == Ok(Fields(pairs, parse).value[pairs[i].0])
    decreases |pairs|
  {
    var pre := pairs[..|pairs| - 1];
    if i < |pre| {
      assert pairs[i] == pre[i];
      forall j | i < j < |pre| ensures pre[j].0 != pre[i].0 {
        assert pairs[j] == pre[j];
      }
      FieldsLastWins(pre, parse, i);
    }
  }

  /** A list fails exactly when one of its items has no assignment or one of its values fails to parse. */
  lemma ListFieldsErr(items: seq<string>, bound: nat, parse: string --> Result<Value>)
    requires forall k :: 0 <= k < |items| ==> |items[k]| < bound
    requires forall t: string :: |t| < bound ==> parse.requires(t)
    ensures ListFields(items, bound, parse).Err? <==>
      || (exists k :: 0 <= k < |items| && ItemParts(items[k]).None?)
      || (exists k :: 0 <= k < |items| && ItemParts(items[k]).Some? && parse(ItemParts(items[k]).value.1).Err?)
  {
    var r := ItemPairs(items);
    if r.Some? {
      var pairs := r.value;
      FieldsErr(pairs, parse);
      if k :| 0 <= k < |pairs| && parse(pairs[k].1).Err? {
        assert ItemParts(items[k]).Some? && parse(ItemParts(items[k]).value.1).Err?;
      }
      if k :| 0 <= k < |items| && ItemParts(items[k]).Some? && parse(ItemParts(items[k]).value.1).Err? {
        assert parse(pairs[k].1).Err?;
      }
    }
  }

  /** The keys of a parsed list are the trimmed names of its items. */
  lemma ListFieldsKeys(items: seq<string>, bound: nat, parse: string --> Result<Value>, name: string)
    requires forall k :: 0 <= k < |items| ==> |items[k]| < bound
    requires forall t: string :: |t| < bound ==> parse.requires(t)
    requires ListFields(items, bound, parse).Ok?
    ensures forall k :: 0 <= k < |items| ==> ItemParts(items[k]).Some?
    ensures name in ListFields(items, bound, parse).value <==> exists i :: 0 <= i < |items| && ItemName(items[i]) == name
  {
    var pairs := ItemPairs(items).value;
    FieldsKeys(pairs, parse, name);
    if i :| 0 <= i < |pairs| && pairs[i].0 == name {
      assert ItemName(items[i]) == name;
    }
    if i :| 0 <= i < |items| && ItemName(items[i]) == name {
      assert pairs[i].0 == name;
    }
  }

  /** In a parsed list, a name holds the parse of the value of the LAST item carrying it. */
  lemma ListFieldsLastWins(items: seq<string>, bound: nat, parse: string --> Result<Value>, i: nat)
    requires forall k :: 0 <= k < |items| ==> |items[k]| < bound
    requires forall t: string :: |t| < bound ==> parse.requires(t)
    requires ListFields(items, bound, parse).Ok? && i < |items|
    requires forall k :: 0 <= k < |items| ==> ItemParts(items[k]).Some?
    requires forall j :: i < j < |items| ==> ItemName(items[j]) != ItemName(items[i])
    ensures ItemName(items[i]) in ListFields(items, bound, parse).value
    ensures parse(ItemParts(items[i]).value.1) == Ok(ListFields(items, bound, parse).value[ItemName(items[i])])
  {
    var pairs := ItemPairs(items).value;
    forall j | i < j < |pairs| ensures pairs[j].0 != pairs[i].0 {
      assert pairs[j].0 == ItemName(items[j]);
    }
    FieldsLastWins(pairs, parse, i);
  }

  // ---------------------------------------------------------------- ModelSpecifierGrouper

  /** A row of the model-options sheet. */
  datatype OptionRow = OptionRow(modelspec: string, fn: Value, option: string, value: Value)

  /** One entry of the result: the specifier, its model function and its parsed options. */
  datatype ModelSpecifier = ModelSpecifier(name: string, model: Value, modelOptions: map<string, Value>)

  function Specs(rows: seq<OptionRow>): (r: seq<string>)
    ensures |r| == |rows| && forall i :: 0 <= i < |rows| ==> r[i] == rows[i].modelspec
  {
    seq(|rows|, i requires 0 <= i < |rows| => rows[i].modelspec)
  }

  /** The group of one specifier (lodash groupBy keeps row order within a group). */
  function Group(rows: seq<OptionRow>, spec: string): (g: seq<OptionRow>)
    ensures forall r :: r in g <==> r in rows && r.modelspec == spec
    ensures Subsequence(g, rows)
    decreases |rows|
  {
    if rows == [] then []
    else
      assert forall r :: r in rows <==> r in rows[..|rows| - 1] || r == rows[|rows| - 1];
      var pre := Group(rows[..|rows| - 1], spec);
      var last := rows[|rows| - 1];
      assert rows == rows[..|rows| - 1] + [last];
      SubsequenceSnoc(pre, rows[..|rows| - 1], last);
      if last.modelspec == spec then
        assert Subsequence(pre + [last], rows);
        pre + [last]
      else
        assert Subsequence(pre, rows);
        pre
  }

  /** Every row of the specifier occurs in its group as often as in the input: with the
      `Subsequence` clause, the group is those rows in row order. */
  lemma {:induction false} GroupCounts(rows: seq<OptionRow>, spec: string)
    ensures forall r :: multiset(Group(rows, spec))[r] == if r.modelspec == spec then multiset(rows)[r] else 0
    decreases |rows|
  {
    if rows != [] {
      GroupCounts(rows[..|rows| - 1], spec);
      assert rows == rows[..|rows| - 1] + [rows[|rows| - 1]];
    }
  }

  /** The index of the first row whose `function` cell is truthy. */
  function FirstWithFunction(g: seq<OptionRow>): (k: Option<nat>)
    ensures k.Some? ==> k.value < |g| && Truthy(g[k.value].fn) && forall m :: 0 <= m < k.value ==> !Truthy(g[m].fn)
    ensures k.None? ==> forall m :: 0 <= m < |g| ==> !Truthy(g[m].fn)
  {
    if g == [] then None
    else if Truthy(g[|g| - 1].fn) && FirstWithFunction(g[..|g| - 1]).None? then Some(|g| - 1)
    else
      var k := FirstWithFunction(g[..|g| - 1]);
      if k.Some? then k else None
  }

  /** `optionRows.find((row) => row["function"])?.function`: the first truthy function cell,
      Undefined when there is none. */
  function ModelFunction(g: seq<OptionRow>): Value {
    match FirstWithFunction(g)
    case Some(k) => g[k].fn
    case None => Undefined
  }

  /** zipObject(options, values.map(parse)): later rows overwrite earlier rows with the same
      option; a value whose parse throws makes the whole call throw. */
  function ZipOptions(g: seq<OptionRow>, parse: Value -> Result<Value>): Result<map<string, Value>>
    decreases |g|
  {
    if g == [] then Ok(map[])
    else
      var pre :- ZipOptions(g[..|g| - 1], parse);
      var v :- parse(g[|g| - 1].value);
      Ok(pre[g[|g| - 1].option := v])
  }

  /** The options of a group with the "" entry deleted. */
  function ModelOptions(g: seq<OptionRow>, parse: Value -> Result<Value>): Result<map<string, Value>> {
    var m :- ZipOptions(g, parse);
    Ok(m - {""})
  }

  /** The entry pushed for one specifier. */
  function Specifier(rows: seq<OptionRow>, spec: string, parse: Value -> Result<Value>): Result<ModelSpecifier> {
    var g := Group(rows, spec);
    var options :- ModelOptions(g, parse);
    Ok(ModelSpecifier(spec, ModelFunction(g), options))
  }

  /** The entry of each specifier, as the callback of the loop over the groups. */
  function SpecifierOf(rows: seq<OptionRow>, parse: Value -> Result<Value>): string -> Result<ModelSpecifier> {
    spec => Specifier(rows, spec, parse)
  }

  /** The entries for `keys`, in order; the first group whose options throw makes the call throw. */
  function SpecifierList(rows: seq<OptionRow>, keys: seq<string>, parse: Value -> Result<Value>): Result<seq<ModelSpecifier>> {
    MapAll(keys, SpecifierOf(rows, parse))
  }

  /** The specifier keys in the order the groups are visited (first-seen). */
  function SpecifierKeys(rows: seq<OptionRow>): seq<string> {
    Uniq(Specs(rows))
  }

  /** parseValue, as the callback that parses the value cell of each row. */
  function ValueParser(toNumber: string -> Option<real>, showNum: real -> string): Value -> Result<Value> {
    v => ParseValue(v, toNumber, showNum)
  }

  /** parseModelSpecifiers, whose value cells are parsed by parseValue. */
  method ParseModelSpecifiers(rows: seq<OptionRow>, toNumber: string -> Option<real>, showNum: real -> string)
    returns (r: Result<seq<ModelSpecifier>>)
    ensures r == SpecifierList(rows, SpecifierKeys(rows), ValueParser(toNumber, showNum))
  {
    r := GroupSpecifiers(rows, ValueParser(toNumber, showNum));
  }

  /** The loop of parseModelSpecifiers: one iteration per group, in first-seen order, pushing its
      entry; `parse` parses the value cells. */
  method GroupSpecifiers(rows: seq<OptionRow>, parse: Value -> Result<Value>) returns (r: Result<seq<ModelSpecifier>>)
    ensures r == SpecifierList(rows, SpecifierKeys(rows), parse)
  {
    ghost var entry := SpecifierOf(rows, parse);
    var keys := SpecifierKeys(rows);
    var out: seq<ModelSpecifier> := [];
    var i := 0;
    while i < |keys|
      invariant 0 <= i <= |keys|
      invariant MapAll(keys[..i], entry) == Ok(out)
    {
      var e := Specifier(rows, keys[i], parse);
      MapAllStep(keys, entry, i, out);
      if e.Err? {
        MapAllErrPrefix(keys, entry, i + 1);
        return Err(e.error);
      }
      out := out + [e.value];
      i := i + 1;
    }
    assert keys[..i] == keys;
    r := Ok(out);
  }

  // ---------------------------------------------------------------- ModelSpecifierGrouper properties

  /** The k-th entry is the entry of the k-th key. */
  lemma SpecifierListAt(rows: seq<OptionRow>, keys: seq<string>, parse: Value -> Result<Value>, k: nat)
    requires SpecifierList(rows, keys, parse).Ok? && k < |keys|
    ensures |SpecifierList(rows, keys, parse).value| == |keys|
    ensures Specifier(rows, keys[k], parse) == Ok(SpecifierList(rows, keys, parse).value[k])
  {
    MapAllAt(keys, SpecifierOf(rows, parse), k);
  }

  /** The result fails exactly when the options of some group fail to parse. */
  lemma SpecifierListFails(rows: seq<OptionRow>, keys: seq<string>, parse: Value -> Result<Value>)
    ensures SpecifierList(rows, keys, parse).Err? <==> exists k :: 0 <= k < |keys| && ModelOptions(Group(rows, keys[k]), parse).Err?
  {
    var f := SpecifierOf(rows, parse);
    MapAllErr(keys, f);
    forall k | 0 <= k < |keys| ensures f(keys[k]).Err? <==> ModelOptions(Group(rows, keys[k]), parse).Err? {
    }
  }

  /** The names of the entries are the specifiers in first-seen order: duplicate-free, and a
      name appears exactly when some row carries it. */
  lemma SpecifierNames(rows: seq<OptionRow>, parse: Value -> Result<Value>, spec: string)
    requires SpecifierList(rows, SpecifierKeys(rows), parse).Ok?
    ensures var r := SpecifierList(rows, SpecifierKeys(rows), parse).value;
      && |r| == |SpecifierKeys(rows)|
      && (forall i :: 0 <= i < |r| ==> r[i].name == SpecifierKeys(rows)[i])
      && (forall i, j :: 0 <= i < j < |r| ==> r[i].name != r[j].name)
      && ((exists i :: 0 <= i < |r| && r[i].name == spec) <==> (exists row :: row in rows && row.modelspec == spec))
  {
    var keys := SpecifierKeys(rows);
    var r := SpecifierList(rows, keys, parse).value;
    if |keys| > 0 {
      SpecifierListAt(rows, keys, parse, 0);
    }
    forall i | 0 <= i < |keys| ensures r[i].name == keys[i] {
      SpecifierListAt(rows, keys, parse, i);
    }
    assert Distinct(keys);
    forall i, j | 0 <= i < j < |r| ensures r[i].name != r[j].name {
      assert r[i].name == keys[i] && r[j].name == keys[j];
    }
    if i :| 0 <= i < |r| && r[i].name == spec {
      assert spec in Specs(rows);
      var k :| 0 <= k < |rows| && Specs(rows)[k] == spec;
      assert rows[k] in rows;
    }
    if row :| row in rows && row.modelspec == spec {
      var k :| 0 <= k < |rows| && rows[k] == row;
      assert Specs(rows)[k] == spec;
      assert spec in keys;
      var i :| 0 <= i < |keys| && keys[i] == spec;
      assert r[i].name == spec;
    }
  }

  /** Each entry carries its own group's model function and model options. */
  lemma SpecifierEntry(rows: seq<OptionRow>, keys: seq<string>, parse: Value -> Result<Value>, i: nat)
    requires SpecifierList(rows, keys, parse).Ok? && i < |keys|
    ensures |SpecifierList(rows, keys, parse).value| == |keys|
    ensures var e := SpecifierList(rows, keys, parse).value[i];
      && e.name == keys[i]
      && e.model == ModelFunction(Group(rows, keys[i]))
      && ModelOptions(Group(rows, keys[i]), parse) == Ok(e.modelOptions)
  {
    SpecifierListAt(rows, keys, parse, i);
  }

  /** The options of a group fail exactly when the parse of one of its values fails. */
  lemma {:induction false} ZipOptionsErr(g: seq<OptionRow>, parse: Value -> Result<Value>)
    ensures ZipOptions(g, parse).Err? <==> exists i :: 0 <= i < |g| && parse(g[i].value).Err?
    decreases |g|
  {
    if g != [] {
      var pre := g[..|g| - 1];
      ZipOptionsErr(pre, parse);
      if i :| 0 <= i < |pre| && parse(pre[i].value).Err? {
        assert g[i] == pre[i];
      }
      if i :| 0 <= i < |g| && parse(g[i].value).Err? {
        if i < |pre| {
          assert g[i] == pre[i];
        }
      }
    }
  }

  /** The keys of the zipped options are the options of the group. */
  lemma {:induction false} ZipOptionsKeys(g: seq<OptionRow>, parse: Value -> Result<Value>, key: string)
    requires ZipOptions(g, parse).Ok?
    ensures key in ZipOptions(g, parse).value <==> exists i :: 0 <= i < |g| && g[i].option == key
    decreases |g|
  {
    if g != [] {
      var pre := g[..|g| - 1];
      ZipOptionsKeys(pre, parse, key);
      if i :| 0 <= i < |pre| && pre[i].option == key {
        assert g[i] == pre[i];
      }
      if i :| 0 <= i < |g| && g[i].option == key {
        if i < |pre| {
          assert g[i] == pre[i];
        }
      }
    }
  }

  /** An option holds the parse of the value of the LAST row with that option. */
  lemma {:induction false} ZipOptionsLastWins(g: seq<OptionRow>, parse: Value -> Result<Value>, i: nat)
    requires ZipOptions(g, parse).Ok? && i < |g|
    requires forall j :: i < j < |g| ==> g[j].option != g[i].option
    ensures g[i].option in ZipOptions(g, parse).value
    ensures parse(g[i].value) == Ok(ZipOptions(g, parse).value[g[i].option])
    decreases |g|
  {
    var pre := g[..|g| - 1];
    if i < |pre| {
      assert g[i] == pre[i];
      forall j | i < j < |pre| ensures pre[j].option != pre[i].option {
        assert g[j] == pre[j];
      }
      ZipOptionsLastWins(pre, parse, i);
    }
  }

  /** The model options of a group: "" is never a key, every other option of the group is one,
      holding the parse of the value of the last row with that option. */
  lemma ModelOptionsMeaning(g: seq<OptionRow>, parse: Value -> Result<Value>, key: string)
    requires ModelOptions(g, parse).Ok?
    ensures "" !in ModelOptions(g, parse).value
    ensures key in ModelOptions(g, parse).value <==> key != "" && exists i :: 0 <= i < |g| && g[i].option == key
    ensures forall i :: 0 <= i < |g| && g[i].option == key && key != "" && (forall j :: i < j < |g| ==> g[j].option != key) ==>
              key in ModelOptions(g, parse).value && parse(g[i].value) == Ok(ModelOptions(g, parse).value[key])
  {
    ZipOptionsKeys(g, parse, key);
    forall i | 0 <= i < |g| && g[i].option == key && key != "" && (forall j :: i < j < |g| ==> g[j].option != key)
      ensures key in ModelOptions(g, parse).value && parse(g[i].value) == Ok(ModelOptions(g, parse).value[key])
    {
      ZipOptionsLastWins(g, parse, i);
    }
  }
}
