/** The tag input: a controlled list of tags plus the text being typed. Adding
    hands the list with the trimmed text appended to `onChange` when it is new
    and non-blank, and always clears the text; removing hands the list without
    that tag. */
module TagInput {
  import opened Wrappers
  import opened Seqs
  import opened Text

  /** The list `addTag` passes to `onChange`, or `None` when it makes no call. */
  function AddedTags(tags: seq<string>, input: string): (r: Option<seq<string>>)
    ensures r.Some? <==> Trim(input) != [] && Trim(input) !in tags
    ensures r.Some? ==> |r.value| == |tags| + 1 && r.value[..|tags|] == tags && r.value[|tags|] == Trim(input)
  {
    var trimmed := Trim(input);
    if trimmed != [] && trimmed !in tags then Some(tags + [trimmed]) else None
  }

  /** Adding never introduces a duplicate, and the tag added is non-empty with
      no surrounding whitespace. */
  lemma AddedTagsNoDups(tags: seq<string>, input: string)
    requires NoDups(tags)
    ensures AddedTags(tags, input).Some? ==> NoDups(AddedTags(tags, input).value)
    ensures AddedTags(tags, input).Some? ==>
      var t := AddedTags(tags, input).value[|tags|];
      t != [] && !IsJsWhitespace(t[0]) && !IsJsWhitespace(t[|t| - 1])
  {
    var r := AddedTags(tags, input);
    if r.Some? {
      var t := Trim(input);
      assert r.value == tags + [t];
      NoDupsConcat(tags, [t]);
    }
  }

  /** Adding the same text twice adds it once. */
  lemma AddedTagsTwice(tags: seq<string>, input: string)
    requires AddedTags(tags, input).Some?
    ensures AddedTags(AddedTags(tags, input).value, input).None?
  {
    assert AddedTags(tags, input).value[|tags|] == Trim(input);
  }

  /** Removing a tag drops all its occurrences and keeps the rest in order,
      and a tag list without duplicates stays without. */
  lemma RemovedTags(tags: seq<string>, tag: string, i: nat)
    requires i <= |tags|
    ensures tag !in Without(tags, tag)
    ensures forall t :: t != tag ==> (t in Without(tags, tag) <==> t in tags)
    ensures Without(tags, tag) == Without(tags[..i], tag) + Without(tags[i..], tag)
    ensures NoDups(tags) ==> NoDups(Without(tags, tag))
  {
    forall t | t != tag ensures t in Without(tags, tag) <==> t in tags {
      assert t in Without(tags, tag) <==> multiset(Without(tags, tag))[t] > 0;
      assert t in tags <==> multiset(tags)[t] > 0;
    }
    assert tags == tags[..i] + tags[i..];
    WithoutConcat(tags[..i], tags[i..], tag);
    if NoDups(tags) {
      WithoutNoDups(tags, tag);
    }
  }

  /** The keys that trigger `addTag`. */
  predicate TriggersAdd(key: string) {
    key == "Enter" || key == ","
  }

  class TagInputState {
    /** The tags the parent passes in. */
    var value: seq<string>
    /** The text being typed. */
    var input: string

    constructor (value: seq<string>)
      ensures this.value == value && input == ""
    {
      this.value := value;
      input := "";
    }

    /** The parent re-renders with the list it received from `onChange`. */
    method Receive(tags: seq<string>)
      modifies this
      ensures value == tags && input == old(input)
    {
      value := tags;
    }

    /** Typing into the field. */
    method Type(text: string)
      modifies this
      ensures input == text && value == old(value)
    {
      input := text;
    }

    /** `addTag`: the list for `onChange`, if any; the text is cleared even
        when nothing was added. */
    method AddTag() returns (change: Option<seq<string>>)
      modifies this
      ensures change == AddedTags(old(value), old(input))
      ensures input == "" && value == old(value)
    {
      var trimmed := Trim(input);
      change := None;
      if trimmed != [] && trimmed !in value {
        change := Some(value + [trimmed]);
      }
      input := "";
    }

    /** `removeTag`: the list for `onChange`. */
    method RemoveTag(tag: string) returns (change: seq<string>)
      ensures change == Without(value, tag)
    {
      change := Without(value, tag);
    }

    /** `onKeyDown`: Enter and "," add the typed text; any other key changes
        nothing. */
    method KeyDown(key: string) returns (change: Option<seq<string>>)
      modifies this
      ensures TriggersAdd(key) ==> change == AddedTags(old(value), old(input)) && input == ""
      ensures !TriggersAdd(key) ==> change.None? && input == old(input)
      ensures value == old(value)
    {
      change := None;
      if key == "Enter" || key == "," {
        change := AddTag();
      }
    }
  }
}
