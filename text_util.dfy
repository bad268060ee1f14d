/** `pluralCount` of client/src/services/text.js: a count followed by the matching noun. */
module TextUtil {
  import opened Base
  import opened JsValue
  import ServiceUtils

  /** `${count} ${count === 1 ? singular : plural}`, where the plural defaults to the singular
      followed by "s" only when it is not passed (an explicit "" stays ""). */
  function PluralCount(count: Value, singular: string, plural: Option<string>, showNum: real -> string): (r: string)
    ensures |r| > |ToStr(count, showNum)| && r[..|ToStr(count, showNum)| + 1] == ToStr(count, showNum) + " "
    ensures count == Num(1.0) ==> r == showNum(1.0) + " " + singular
    ensures count != Num(1.0) ==> r[|ToStr(count, showNum)| + 1..] == (if plural.Some? then plural.value else singular + "s")
  {
    var prefix := ToStr(count, showNum) + " ";
    var noun := if count == Num(1.0) then singular else if plural.Some? then plural.value else singular + "s";
    assert (prefix + noun)[..|prefix|] == prefix;
    assert (prefix + noun)[|prefix|..] == noun;
    prefix + noun
  }

  /** `pluralCount` is the count, a space and `pluralize` of the same arguments, except when
      an empty plural is passed: `pluralize` then falls back to the singular plus "s". */
  lemma PluralCountIsPluralize(count: Value, singular: string, plural: Option<string>, showNum: real -> string)
    ensures plural != Some("") ==>
      PluralCount(count, singular, plural, showNum)
        == ToStr(count, showNum) + " " + ServiceUtils.Pluralize(count, singular, plural)
    ensures plural == Some("") && count != Num(1.0) ==>
      PluralCount(count, singular, plural, showNum) == ToStr(count, showNum) + " "
      && ServiceUtils.Pluralize(count, singular, plural) == singular + "s"
  {
    var r := PluralCount(count, singular, plural, showNum);
    var n := |ToStr(count, showNum)| + 1;
    assert r == r[..n] + r[n..];
  }
}
