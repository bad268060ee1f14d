/** The version line of the page footer, client/src/modules/common/footer.jsx: the release
    version and date read from git tag and branch names of the form "comets_X.Y.Z_YYYYMMDD",
    the choice between tag and branch, and the date shown as last updated. */
module Footer {
  import opened Base
  import opened Strings

  const Prefix := "comets_"

  /** The length of the run of decimal digits starting at `i`. */
  function DigitRun(s: string, i: nat): (n: nat)
    requires i <= |s|
    ensures i + n <= |s|
    ensures i + n == |s| || !IsDigit(s[i + n])
    decreases |s| - i
  {
    if i == |s| || !IsDigit(s[i]) then 0 else 1 + DigitRun(s, i + 1)
  }

  /** Where `\d+\.\d+\.\d+` matched at `j` ends. Each `\d+` before a "." can only match the
      whole digit run, and the last one is greedy, so the match is the three maximal runs. */
  function VersionEnd(s: string, j: nat): (r: Option<nat>)
    requires j <= |s|
    ensures r.Some? ==> j < r.value <= |s|
  {
    var a := DigitRun(s, j);
    if a == 0 || j + a >= |s| || s[j + a] != '.' then None
    else
      var b := DigitRun(s, j + a + 1);
      if b == 0 || j + a + 1 + b >= |s| || s[j + a + 1 + b] != '.' then None
      else
        var c := DigitRun(s, j + a + b + 2);
        if c == 0 then None else Some(j + a + b + 2 + c)
  }

  /** `/^\d+\.\d+\.\d+$/.test(v)`. */
  predicate VersionShape(v: string) {
    VersionEnd(v, 0) == Some(|v|)
  }

  /** `/comets_(\d+\.\d+\.\d+)/` matched at `i`: the end of the match. */
  function VersionMatchAt(s: string, i: nat): Option<nat> {
    if OccursAt(s, Prefix, i) then VersionEnd(s, i + |Prefix|) else None
  }

  /** The leftmost match at or after `i`: its start and end. */
  function FirstVersionMatch(s: string, i: nat): (r: Option<(nat, nat)>)
    requires i <= |s|
    ensures r.None? ==> forall k :: i <= k <= |s| ==> VersionMatchAt(s, k).None?
    ensures r.Some? ==>
      i <= r.value.0 && OccursAt(s, Prefix, r.value.0) && VersionMatchAt(s, r.value.0) == Some(r.value.1)
    decreases |s| - i
  {
    var m := VersionMatchAt(s, i);
    if m.Some? then Some((i, m.value))
    else if i == |s| then None
    else FirstVersionMatch(s, i + 1)
  }

  /** `extractVersion`: the captured X.Y.Z of the first match, else the input unchanged. */
  function ExtractVersion(source: string): string {
    var m := FirstVersionMatch(source, 0);
    if m.Some? then source[m.value.0 + |Prefix|..m.value.1] else source
  }

  /** `/comets_\d+\.\d+\.\d+_(\d{8})/` matched at `i`: the eight captured digits. */
  function DateMatchAt(s: string, i: nat): Option<string> {
    if !OccursAt(s, Prefix, i) then None
    else
      var e := VersionEnd(s, i + |Prefix|);
      if e.None? || e.value + 9 > |s| || s[e.value] != '_' || !AllDigits(s[e.value + 1..e.value + 9]) then None
      else Some(s[e.value + 1..e.value + 9])
  }

  function FirstDateMatch(s: string, i: nat): (r: Option<string>)
    requires i <= |s|
    ensures r.None? ==> forall k :: i <= k <= |s| ==> DateMatchAt(s, k).None?
    ensures r.Some? ==> exists k :: i <= k <= |s| && DateMatchAt(s, k) == r
    decreases |s| - i
  {
    var m := DateMatchAt(s, i);
    if m.Some? then m
    else if i == |s| then None
    else FirstDateMatch(s, i + 1)
  }

  /** "YYYYMMDD" as "YYYY-MM-DD". */
  function Dashed(d: string): string
    requires |d| == 8
  {
    d[..4] + "-" + d[4..6] + "-" + d[6..]
  }

  /** `extractDateFromSource`: the dashed date of the first match, else null. */
  function ExtractDate(source: string): Option<string> {
    var m := FirstDateMatch(source, 0);
    if m.Some? then Some(Dashed(m.value)) else None
  }

  /** `/^\d{4}-\d{2}-\d{2}$/.test(d)`. */
  predicate IsoDate(d: string) {
    |d| == 10 && d[4] == '-' && d[7] == '-'
    && AllDigits(d[..4]) && AllDigits(d[5..7]) && AllDigits(d[8..])
  }

  /** `getVersionSource`, including its final `return gitTag`. */
  function VersionSource(tag: string, branch: string): string {
    if branch == "master" || branch == "main" || !VersionShape(ExtractVersion(branch)) then tag
    else
      var tagDate := ExtractDate(tag);
      var branchDate := ExtractDate(branch);
      if tagDate.Some? && branchDate.Some? then (if Less(tagDate.value, branchDate.value) then branch else tag)
      else if branchDate.Some? && tagDate.None? then branch
      else if VersionShape(ExtractVersion(branch)) then branch
      else tag
  }

  /** `formatDate`: a YYYY-MM-DD string as it is; anything else through the Date conversion,
      which is a parameter (None where it throws, leaving the input as it is). */
  function FormatDate(d: string, convert: string -> Option<string>): (r: string)
    ensures IsoDate(d) ==> r == d
  {
    if IsoDate(d) then d
    else
      var c := convert(d);
      if c.Some? then c.value else d
  }

  /** A digit run is the same whether read in `t` alone or with text around it, as long as it
      stops inside `t` or is followed by a non-digit. */
  lemma {:induction false} DigitRunEmbed(p: string, t: string, q: string, k: nat, m: nat)
    requires k <= |t|
    requires (q == [] || !IsDigit(q[0])) || (k <= m < |t| && !IsDigit(t[m]))
    ensures DigitRun(p + t + q, |p| + k) == DigitRun(t, k)
    decreases |t| - k
  {
    var s := p + t + q;
    if k < |t| {
      assert s[|p| + k] == t[k];
      if IsDigit(t[k]) {
        DigitRunEmbed(p, t, q, k + 1, m);
      }
    } else if q != [] {
      assert s[|p| + k] == q[0];
    }
  }

  /** The three digit runs of a version match at `j`. */
  lemma VersionParts(s: string, j: nat) returns (a: nat, b: nat, c: nat)
    requires j <= |s| && VersionEnd(s, j).Some?
    ensures a > 0 && j + a < |s| && DigitRun(s, j) == a && s[j + a] == '.'
    ensures b > 0 && j + a + 1 + b < |s| && DigitRun(s, j + a + 1) == b && s[j + a + 1 + b] == '.'
    ensures c > 0 && DigitRun(s, j + a + b + 2) == c && VersionEnd(s, j) == Some(j + a + b + 2 + c)
  {
    a := DigitRun(s, j);
    b := DigitRun(s, j + a + 1);
    c := DigitRun(s, j + a + b + 2);
  }

  /** Three digit runs separated by dots make a version match. */
  lemma VersionEndIs(s: string, j: nat, a: nat, b: nat, c: nat)
    requires a > 0 && j + a < |s| && DigitRun(s, j) == a && s[j + a] == '.'
    requires b > 0 && j + a + 1 + b < |s| && DigitRun(s, j + a + 1) == b && s[j + a + 1 + b] == '.'
    requires c > 0 && j + a + b + 2 <= |s| && DigitRun(s, j + a + b + 2) == c
    ensures VersionEnd(s, j) == Some(j + a + b + 2 + c)
  {
  }

  /** The runs of a version `t` read the same at the start of `t` inside `p + t + q`. */
  lemma EmbedRuns(p: string, t: string, q: string, a: nat, b: nat, c: nat)
    requires q == [] || !IsDigit(q[0])
    requires a > 0 && a < |t| && DigitRun(t, 0) == a && t[a] == '.'
    requires b > 0 && a + 1 + b < |t| && DigitRun(t, a + 1) == b && t[a + 1 + b] == '.'
    requires c > 0 && DigitRun(t, a + b + 2) == c && a + b + 2 + c == |t|
    ensures var s := p + t + q;
      && |p| + a < |s| && DigitRun(s, |p|) == a && s[|p| + a] == '.'
      && |p| + a + 1 + b < |s| && DigitRun(s, |p| + a + 1) == b && s[|p| + a + 1 + b] == '.'
      && |p| + a + b + 2 <= |s| && DigitRun(s, |p| + a + b + 2) == c
  {
    var s := p + t + q;
    DigitRunEmbed(p, t, q, 0, a);
    DigitRunEmbed(p, t, q, a + 1, a + 1 + b);
    DigitRunEmbed(p, t, q, a + b + 2, 0);
    assert s[|p| + a] == t[a] && s[|p| + a + 1 + b] == t[a + 1 + b];
  }

  /** A version written out in full is found at the start of `t` inside `p + t + q`. */
  lemma VersionEndEmbed(p: string, t: string, q: string)
    requires VersionShape(t)
    requires q == [] || !IsDigit(q[0])
    ensures VersionEnd(p + t + q, |p|) == Some(|p| + |t|)
  {
    var a, b, c := VersionParts(t, 0);
    EmbedRuns(p, t, q, a, b, c);
    VersionEndIs(p + t + q, |p|, a, b, c);
  }

  /** A digit run is the same read in the slice `s[lo..hi]`, as long as it stops inside the
      slice or is followed by a non-digit in `s`. */
  lemma {:induction false} DigitRunSlice(s: string, lo: nat, hi: nat, k: nat, m: nat)
    requires lo <= k <= hi <= |s|
    requires (hi == |s| || !IsDigit(s[hi])) || (k <= m < hi && !IsDigit(s[m]))
    ensures DigitRun(s[lo..hi], k - lo) == DigitRun(s, k)
    decreases hi - k
  {
    if k < hi {
      assert s[lo..hi][k - lo] == s[k];
      if IsDigit(s[k]) {
        DigitRunSlice(s, lo, hi, k + 1, m);
      }
    }
  }

  /** The runs of a match at `j` read the same in the slice it spans. */
  lemma SliceRuns(s: string, j: nat, e: nat, a: nat, b: nat, c: nat)
    requires e <= |s|
    requires a > 0 && j + a < |s| && DigitRun(s, j) == a && s[j + a] == '.'
    requires b > 0 && j + a + 1 + b < |s| && DigitRun(s, j + a + 1) == b && s[j + a + 1 + b] == '.'
    requires c > 0 && DigitRun(s, j + a + b + 2) == c && e == j + a + b + 2 + c
    ensures var t := s[j..e];
      && a < |t| && DigitRun(t, 0) == a && t[a] == '.'
      && a + 1 + b < |t| && DigitRun(t, a + 1) == b && t[a + 1 + b] == '.'
      && a + b + 2 <= |t| && DigitRun(t, a + b + 2) == c && |t| == a + b + 2 + c
  {
    SliceDottedRun(s, j, e, 0, a);
    SliceDottedRun(s, j, e, a + 1, b);
    DigitRunSlice(s, j, e, j + a + b + 2, e);
  }

  /** A digit run followed by a dot inside `s[j..e]` reads the same in the slice. */
  lemma SliceDottedRun(s: string, j: nat, e: nat, k: nat, n: nat)
    requires j + k + n < e <= |s| && DigitRun(s, j + k) == n && s[j + k + n] == '.'
    ensures DigitRun(s[j..e], k) == n && s[j..e][k + n] == '.'
  {
    DigitRunSlice(s, j, e, j + k, j + k + n);
  }

  /** What a match at `j` spans is itself a version. */
  lemma VersionEndSlice(s: string, j: nat, e: nat)
    requires j <= |s| && VersionEnd(s, j) == Some(e)
    ensures VersionShape(s[j..e])
  {
    var a, b, c := VersionParts(s, j);
    SliceRuns(s, j, e, a, b, c);
    VersionEndIs(s[j..e], 0, a, b, c);
  }

  /** The extracted version is an X.Y.Z that follows "comets_" in the source; without a match
      the source comes back unchanged. */
  lemma ExtractVersionMeaning(source: string)
    ensures var v := ExtractVersion(source);
      (FirstVersionMatch(source, 0).Some? ==> VersionShape(v) && Contains(source, Prefix + v))
      && (FirstVersionMatch(source, 0).None? ==> v == source)
  {
    var m := FirstVersionMatch(source, 0);
    if m.Some? {
      var (st, en) := m.value;
      assert VersionEnd(source, st + |Prefix|) == Some(en);
      VersionEndSlice(source, st + |Prefix|, en);
      assert ExtractVersion(source) == source[st + |Prefix|..en];
      MatchSpan(source, st, en);
    }
  }

  /** A match at `st` ending at `en` spells "comets_" followed by the captured text. */
  lemma MatchSpan(source: string, st: nat, en: nat)
    requires OccursAt(source, Prefix, st) && st + |Prefix| <= en <= |source|
    ensures Contains(source, Prefix + source[st + |Prefix|..en])
  {
    var v := source[st + |Prefix|..en];
    assert source[st..en] == source[st..st + |Prefix|] + v;
    assert source[st..st + |Prefix|] == Prefix;
    assert OccursAt(source, Prefix + v, st);
  }

  /** A source without "comets_" has no version match and no date. */
  lemma NoPrefix(source: string)
    requires forall i :: !OccursAt(source, Prefix, i)
    ensures ExtractVersion(source) == source && ExtractDate(source).None?
  {
  }

  /** "comets_X.Y.Z" followed by anything but a digit gives X.Y.Z. */
  lemma ExtractVersionOf(v: string, rest: string)
    requires VersionShape(v)
    requires rest == [] || !IsDigit(rest[0])
    ensures ExtractVersion(Prefix + v + rest) == v
  {
    var s := Prefix + v + rest;
    VersionEndEmbed(Prefix, v, rest);
    assert OccursAt(s, Prefix, 0);
    assert s[|Prefix|..|Prefix| + |v|] == v;
  }

  /** "comets_X.Y.Z_YYYYMMDD" gives "YYYY-MM-DD". */
  lemma ExtractDateOf(v: string, d: string, rest: string)
    requires VersionShape(v) && |d| == 8 && AllDigits(d)
    ensures ExtractDate(Prefix + v + "_" + d + rest) == Some(Dashed(d))
  {
    var s := Prefix + v + "_" + d + rest;
    VersionEndEmbed(Prefix, v, "_" + d + rest);
    assert s == Prefix + v + ("_" + d + rest);
    assert OccursAt(s, Prefix, 0);
    var e := |Prefix| + |v|;
    assert s[e] == '_';
    assert s[e + 1..e + 9] == d;
  }

  /** An extracted date always has the YYYY-MM-DD shape, so `formatDate` passes it through. */
  lemma ExtractDateIsIso(source: string, convert: string -> Option<string>)
    requires ExtractDate(source).Some?
    ensures IsoDate(ExtractDate(source).value)
    ensures FormatDate(ExtractDate(source).value, convert) == ExtractDate(source).value
  {
    var d := FirstDateMatch(source, 0).value;
    var r := Dashed(d);
    assert r[..4] == d[..4] && r[5..7] == d[4..6] && r[8..] == d[6..];
  }

  /** Comparing strings that share a prefix of the same length is comparing what follows. */
  lemma {:induction false} LessSamePrefixLength(a: string, b: string, x: string, y: string)
    requires |a| == |b|
    ensures Less(a + x, b + y) <==> Less(a, b) || (a == b && Less(x, y))
    decreases |a|
  {
    if a != [] {
      assert (a + x)[1..] == a[1..] + x && (b + y)[1..] == b[1..] + y;
      LessSamePrefixLength(a[1..], b[1..], x, y);
      if a[0] == b[0] && a[1..] == b[1..] {
        assert a == [a[0]] + a[1..] && b == [b[0]] + b[1..];
      }
    } else {
      assert a + x == x && b + y == y;
    }
  }

  /** Splitting a concatenation at the same length on both sides. */
  lemma ConcatEq(a: string, b: string, x: string, y: string)
    requires |a| == |b|
    ensures a + x == b + y <==> a == b && x == y
  {
    if a + x == b + y {
      assert (a + x)[..|a|] == a && (b + y)[..|b|] == b;
      assert (a + x)[|a|..] == x && (b + y)[|b|..] == y;
    }
  }

  /** A dash after strings of the same length changes neither order nor equality. */
  lemma DashAfter(a: string, b: string)
    requires |a| == |b|
    ensures Less(a + "-", b + "-") <==> Less(a, b)
    ensures a + "-" == b + "-" <==> a == b
  {
    LessSamePrefixLength(a, b, "-", "-");
    LessIrreflexive("-");
    ConcatEq(a, b, "-", "-");
  }

  /** Dashing two dates keeps their order: the string comparison of dashed dates is the
      comparison of the dates. */
  lemma DashedOrder(d1: string, d2: string)
    requires |d1| == 8 && |d2| == 8
    ensures Less(Dashed(d1), Dashed(d2)) <==> Less(d1, d2)
  {
    var y1, m1, r1 := d1[..4], d1[4..6], d1[6..];
    var y2, m2, r2 := d2[..4], d2[4..6], d2[6..];
    var a1, a2 := y1 + "-", y2 + "-";
    var b1, b2 := m1 + "-", m2 + "-";
    assert Dashed(d1) == (a1 + b1) + r1 && Dashed(d2) == (a2 + b2) + r2;
    assert d1 == y1 + (m1 + r1) && d2 == y2 + (m2 + r2);
    DashAfter(y1, y2);
    DashAfter(m1, m2);
    LessSamePrefixLength(a1 + b1, a2 + b2, r1, r2);
    LessSamePrefixLength(a1, a2, b1, b2);
    ConcatEq(a1, a2, b1, b2);
    LessSamePrefixLength(y1, y2, m1 + r1, m2 + r2);
    LessSamePrefixLength(m1, m2, r1, r2);
  }

  /** The tag is used for the main branches and for branches without an X.Y.Z version; when
      both name a date the branch is used iff its date is later (a tie goes to the tag); in
      every other case the branch is used, so the final `return gitTag` is never reached. */
  lemma VersionSourceChoice(tag: string, branch: string)
    ensures var dated := ExtractDate(tag).Some? && ExtractDate(branch).Some?;
      VersionSource(tag, branch) ==
        if branch == "master" || branch == "main" || !VersionShape(ExtractVersion(branch)) then tag
        else if dated then (if Less(ExtractDate(tag).value, ExtractDate(branch).value) then branch else tag)
        else branch
  {
  }

  /** When tag and branch both carry a date (as "comets_X.Y.Z_YYYYMMDD" does, by ExtractDateOf)
      and the branch is a versioned one other than master and main, the branch wins iff its
      eight-digit date is strictly later. */
  lemma VersionSourceNewer(tag: string, branch: string, td: string, bd: string)
    requires |td| == 8 && |bd| == 8
    requires ExtractDate(tag) == Some(Dashed(td)) && ExtractDate(branch) == Some(Dashed(bd))
    requires branch != "master" && branch != "main" && VersionShape(ExtractVersion(branch))
    ensures VersionSource(tag, branch) == (if Less(td, bd) then branch else tag)
  {
    DashedOrder(td, bd);
  }
}
