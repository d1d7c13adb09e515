/** The tag service: two read-only queries over the tag table. */
module TagServices {
  import opened Wrappers
  import opened Entities
  import opened Queries
  import opened Ordering
  import opened Data

  /** OrderBy(Name). */
  predicate NameOrder(a: Tag, b: Tag) {
    StrLe(a.name, b.name)
  }

  lemma NameOrderIsTotalPreorder()
    ensures TotalPreorder(NameOrder)
  {
    StrKeyIsTotalPreorder(NameOrder, (g: Tag) => g.name);
  }

  /** GetAllTagsAsync: every tag exactly once, ordered by name. */
  function GetAllTags(tags: seq<Tag>): (r: seq<Tag>)
    ensures multiset(r) == multiset(tags)
    ensures SortedBy(r, NameOrder)
  {
    NameOrderIsTotalPreorder();
    SortBy(tags, NameOrder)
  }

  /** In the listing, tags with different names appear in strictly ascending
      name order: a later tag never sorts at or before an earlier one. */
  lemma GetAllTagsStrictByName(tags: seq<Tag>)
    ensures var r := GetAllTags(tags);
      forall i, j :: 0 <= i < j < |r| && r[i].name != r[j].name ==> !StrLe(r[j].name, r[i].name)
  {
    var r := GetAllTags(tags);
    forall i, j | 0 <= i < j < |r| && r[i].name != r[j].name ensures !StrLe(r[j].name, r[i].name) {
      assert NameOrder(r[i], r[j]);
      if StrLe(r[j].name, r[i].name) {
        StrLeAntisymmetric(r[i].name, r[j].name);
      }
    }
  }

  /** GetTagByIdAsync: the tag with that id, or None when there is none. */
  function GetTagById(tags: seq<Tag>, id: int): (r: Option<Tag>)
    ensures r.Some? ==> r.value in tags && r.value.id == id
    ensures r.None? <==> id !in TagIds(tags)
  {
    FirstMatch(tags, (g: Tag) => g.id == id)
  }

  /** The two queries agree: a tag is found by id exactly when the full
      listing holds a tag with that id, and then the listing holds the tag found. */
  lemma TagByIdIffListed(tags: seq<Tag>, id: int)
    ensures GetTagById(tags, id).Some? <==> exists g :: g in GetAllTags(tags) && g.id == id
    ensures GetTagById(tags, id).Some? ==> GetTagById(tags, id).value in GetAllTags(tags)
  {
    var all := GetAllTags(tags);
    forall g ensures g in all <==> g in tags {
      assert g in all <==> multiset(all)[g] > 0;
      assert g in tags <==> multiset(tags)[g] > 0;
    }
    var found := GetTagById(tags, id);
    if found.None? {
      forall g | g in all ensures g.id != id {
        assert g in tags;
        assert TagKey(g) in TagIds(tags);
      }
    }
  }
}
