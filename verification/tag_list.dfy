/** The product form's ingredient and allergen lists: `addTag` and
    `removeTag`. Both lists follow the same rules. */
module TagList {
  import opened Text
  import opened Seqs

  /** What `addTag` does with a value: nothing for a blank one, a
      notification ("<value> is already added") for one already listed, or
      the extended list. */
  datatype TagOutcome = Blank | AlreadyAdded(value: string) | Added(list: seq<string>)

  /** `addTag(type, value)`. A value that is empty after trimming is ignored;
      a trimmed value already in the list (exact, case-sensitive match) is
      refused; any other value is appended trimmed. */
  function AddTag(list: seq<string>, value: string): (r: TagOutcome)
    ensures r.Blank? <==> Trim(value) == []
    ensures r.AlreadyAdded? <==> Trim(value) != [] && Trim(value) in list
    ensures r.AlreadyAdded? ==> r.value == value
    ensures r.Added? ==> |r.list| == |list| + 1 && r.list[..|list|] == list
    ensures r.Added? ==> r.list[|list|] == Trim(value) && Trim(value) != [] && Trim(value) !in list
  {
    var t := Trim(value);
    if t == [] then Blank
    else if t in list then AlreadyAdded(value)
    else
      assert (list + [t])[..|list|] == list;
      Added(list + [t])
  }

  /** The list after `addTag`, whatever the outcome. */
  function AddTagToList(list: seq<string>, value: string): seq<string> {
    match AddTag(list, value)
    case Added(l) => l
    case _ => list
  }

  /** Adding never introduces a duplicate, and the list only ever grows by
      the trimmed value. */
  lemma AddTagKeepsNoDup(list: seq<string>, value: string)
    requires NoDup(list)
    ensures NoDup(AddTagToList(list, value))
    ensures forall x :: x in AddTagToList(list, value) <==> x in list || (x == Trim(value) && x != [])
  {
    var r := AddTagToList(list, value);
    if AddTag(list, value).Added? {
      assert r == list + [Trim(value)];
      forall i, j | 0 <= i < j < |r|
        ensures r[i] != r[j]
      {
        if j == |list| {
          assert r[i] == list[i];
        } else {
          assert r[i] == list[i] && r[j] == list[j];
        }
      }
    }
  }

  /** Adding "Sugar" twice to a list without it leaves exactly one "Sugar". */
  lemma AddSameTagTwice(list: seq<string>, value: string)
    requires Trim(value) != [] && Trim(value) !in list
    ensures multiset(AddTagToList(AddTagToList(list, value), value))[Trim(value)] == 1
    ensures AddTag(AddTagToList(list, value), value) == AlreadyAdded(value)
  {
    var once := AddTagToList(list, value);
    assert once == list + [Trim(value)];
    assert Trim(value) in once;
    assert multiset(list)[Trim(value)] == 0;
  }

  /** `removeTag(type, index)`: the entry at `index` dropped when there is
      one; an index out of range leaves the list unchanged. */
  function RemoveTag(list: seq<string>, index: int): (r: seq<string>)
    ensures 0 <= index < |list| ==> multiset(r) + multiset{list[index]} == multiset(list)
    ensures 0 <= index < |list| ==> r == list[..index] + list[index + 1..]
    ensures !(0 <= index < |list|) ==> r == list
    ensures NoDup(list) ==> NoDup(r)
  {
    if 0 <= index < |list| then
      RemoveAtMultiset(list, index);
      RemoveAtNoDup(list, index);
      RemoveAt(list, index)
    else list
  }
}
