/** The outcome tag manager of client/src/modules/analysis/results/tag-manager.js: a list of
    named tags, each a label (`caption` here, `label` being a Dafny keyword) and the outcome
    values selected when it was created, and the label and values of the tag being composed. */
module TagManager {
  import opened Base

  datatype Tag = Tag(caption: string, value: seq<string>)

  /** The per-field checks of `getValidationState`; each part's `isValid` is the absence of
      all of its error flags. */
  datatype LabelState = LabelState(isEmpty: bool, alreadyExists: bool, isValid: bool)
  datatype ValuesState = ValuesState(isEmpty: bool, isValid: bool)
  datatype ValidationState = ValidationState(isValid: bool, newTagLabel: LabelState, newTagValues: ValuesState)

  predicate DistinctLabels(tags: seq<Tag>) {
    forall i, j :: 0 <= i < j < |tags| ==> tags[i].caption != tags[j].caption
  }

  /** `tags.find(tag => tag.label === newTagLabel)`: the first tag with that label. */
  function FindTag(tags: seq<Tag>, caption: string): (r: Option<Tag>)
    ensures r.Some? ==> r.value in tags && r.value.caption == caption
    ensures r.Some? ==> exists k :: 0 <= k < |tags| && tags[k] == r.value && forall j :: 0 <= j < k ==> tags[j].caption != caption
    ensures r.None? <==> forall k :: 0 <= k < |tags| ==> tags[k].caption != caption
  {
    if tags == [] then None
    else if tags[0].caption == caption then Some(tags[0])
    else
      var r := FindTag(tags[1..], caption);
      assert forall k :: 1 <= k < |tags| ==> tags[k] == tags[1..][k - 1];
      assert r.Some? ==> exists k :: 0 <= k < |tags| && tags[k] == r.value && forall j :: 0 <= j < k ==> tags[j].caption != caption by {
        if r.Some? {
          var k :| 0 <= k < |tags[1..]| && tags[1..][k] == r.value && forall j :: 0 <= j < k ==> tags[1..][j].caption != caption;
          assert tags[k + 1] == r.value;
        }
      }
      r
  }

  /** The validation state of a composed tag against the existing tags. */
  function Validation(tags: seq<Tag>, caption: string, values: seq<string>): (v: ValidationState)
    ensures v.newTagLabel.isEmpty <==> caption == ""
    ensures v.newTagLabel.alreadyExists <==> exists k :: 0 <= k < |tags| && tags[k].caption == caption
    ensures v.newTagLabel.isValid <==> caption != "" && forall k :: 0 <= k < |tags| ==> tags[k].caption != caption
    ensures v.newTagValues.isValid <==> values != []
    ensures v.isValid <==> v.newTagLabel.isValid && v.newTagValues.isValid
  {
    var isEmpty := caption == "";
    var alreadyExists := FindTag(tags, caption).Some?;
    var valuesEmpty := values == [];
    ValidationState(!isEmpty && !alreadyExists && !valuesEmpty,
                    LabelState(isEmpty, alreadyExists, !isEmpty && !alreadyExists),
                    ValuesState(valuesEmpty, !valuesEmpty))
  }

  /** `Object.values(flags).some(Boolean)`. */
  method AnyTrue(flags: seq<bool>) returns (b: bool)
    ensures b <==> exists k :: 0 <= k < |flags| && flags[k]
  {
    b := false;
    var k := 0;
    while k < |flags|
      invariant 0 <= k <= |flags|
      invariant b <==> exists m :: 0 <= m < k && flags[m]
    {
      if flags[k] {
        b := true;
      }
      k := k + 1;
    }
  }

  class Manager {
    var tags: seq<Tag>
    var newTagLabel: string
    var newTagValues: seq<string>

    /** The atoms' defaults: no tags, an empty label and no values. */
    constructor()
      ensures tags == [] && newTagLabel == "" && newTagValues == []
    {
      tags := [];
      newTagLabel := "";
      newTagValues := [];
    }

    /** `getValidationState`: the two parts' flags, then one pass over the parts marking each
        valid iff none of its flags is set, the whole state valid iff every part is. */
    method GetValidationState() returns (v: ValidationState)
      ensures v == Validation(tags, newTagLabel, newTagValues)
    {
      var found := FindTag(tags, newTagLabel);
      var labelState := LabelState(newTagLabel == "", found.Some?, false);
      var valuesState := ValuesState(newTagValues == [], false);
      var parts := [[labelState.isEmpty, labelState.alreadyExists], [valuesState.isEmpty]];
      var isValid := true;
      var k := 0;
      while k < |parts|
        invariant 0 <= k <= |parts|
        invariant k >= 1 ==> labelState.isValid == !(labelState.isEmpty || labelState.alreadyExists)
        invariant k >= 2 ==> valuesState.isValid == !valuesState.isEmpty
        invariant isValid == ((k < 1 || labelState.isValid) && (k < 2 || valuesState.isValid))
        invariant labelState.isEmpty == (newTagLabel == "") && labelState.alreadyExists == found.Some?
        invariant valuesState.isEmpty == (newTagValues == [])
      {
        var keyHasErrors := AnyTrue(parts[k]);
        if k == 0 {
          assert keyHasErrors <==> parts[0][0] || parts[0][1];
          labelState := labelState.(isValid := !keyHasErrors);
        } else {
          assert keyHasErrors <==> parts[1][0];
          valuesState := valuesState.(isValid := !keyHasErrors);
        }
        if keyHasErrors {
          isValid := false;
        }
        k := k + 1;
      }
      v := ValidationState(isValid, labelState, valuesState);
    }

    /** `createTag`: a valid composed tag is appended and the composition reset; an invalid one
        changes nothing. Distinct labels stay distinct. */
    method CreateTag()
      modifies this
      ensures Validation(old(tags), old(newTagLabel), old(newTagValues)).isValid ==>
        tags == old(tags) + [Tag(old(newTagLabel), old(newTagValues))] && newTagLabel == "" && newTagValues == []
      ensures !Validation(old(tags), old(newTagLabel), old(newTagValues)).isValid ==>
        tags == old(tags) && newTagLabel == old(newTagLabel) && newTagValues == old(newTagValues)
      ensures DistinctLabels(old(tags)) ==> DistinctLabels(tags)
    {
      var validationState := GetValidationState();
      if validationState.isValid {
        if DistinctLabels(tags) {
          AppendKeepsDistinct(tags, newTagLabel, newTagValues);
        }
        tags := tags + [Tag(newTagLabel, newTagValues)];
        newTagLabel := "";
        newTagValues := [];
      }
    }

    /** `removeTagByIndex`: the tags at every other position, in order. */
    method RemoveTagByIndex(index: int)
      modifies this
      ensures 0 <= index < |old(tags)| ==> tags == old(tags)[..index] + old(tags)[index + 1..]
      ensures !(0 <= index < |old(tags)|) ==> tags == old(tags)
      ensures newTagLabel == old(newTagLabel) && newTagValues == old(newTagValues)
      ensures DistinctLabels(old(tags)) ==> DistinctLabels(tags)
    {
      var kept: seq<Tag> := [];
      var i := 0;
      while i < |tags|
        invariant 0 <= i <= |tags|
        invariant 0 <= index < i ==> kept == tags[..index] + tags[index + 1..i]
        invariant !(0 <= index < i) ==> kept == tags[..i]
      {
        if i != index {
          kept := kept + [tags[i]];
        }
        i := i + 1;
      }
      assert tags[..|tags|] == tags;
      if 0 <= index < |tags| && DistinctLabels(tags) {
        RemoveKeepsDistinct(tags, index);
      }
      tags := kept;
    }
  }

  /** A composed tag that passes validation carries a label no existing tag has. */
  lemma AppendKeepsDistinct(tags: seq<Tag>, caption: string, values: seq<string>)
    requires DistinctLabels(tags) && Validation(tags, caption, values).isValid
    ensures DistinctLabels(tags + [Tag(caption, values)])
  {
    var s := tags + [Tag(caption, values)];
    forall i, j | 0 <= i < j < |s| ensures s[i].caption != s[j].caption {
      if j == |tags| {
        assert s[i] == tags[i];
      } else {
        assert s[i] == tags[i] && s[j] == tags[j];
      }
    }
  }

  /** Removing one tag keeps the remaining labels distinct. */
  lemma RemoveKeepsDistinct(tags: seq<Tag>, index: nat)
    requires DistinctLabels(tags) && index < |tags|
    ensures DistinctLabels(tags[..index] + tags[index + 1..])
  {
    var s := tags[..index] + tags[index + 1..];
    forall i, j | 0 <= i < j < |s| ensures s[i].caption != s[j].caption {
      var i' := if i < index then i else i + 1;
      var j' := if j < index then j else j + 1;
      assert s[i] == tags[i'] && s[j] == tags[j'];
    }
  }
}
