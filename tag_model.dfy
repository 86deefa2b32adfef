/** The tag model of src/models/tag.rs: statements over the `tags` table and
    the `file_tags` rows that reference a tag. */
module TagModel {
  import opened Wrappers
  import opened Seqs
  import opened ServiceErrors
  import opened Database

  /** The error of `extract_from_name` for an unknown name. */
  const TagNotFound: ServiceError := NotFound("TAG_NOT_FOUND", "Specified tag cannot be found")

  /** A scan of `tags` over ids `lo..hi` in rowid order, keeping the rows
      whose id is in `keep`. */
  function TagScan(m: map<int, string>, keep: set<int>, lo: int, hi: int): (r: seq<Tag>)
    decreases hi - lo + 1
    ensures forall i :: 0 <= i < |r| ==>
      r[i].id in m && r[i].id in keep && r[i].name == m[r[i].id] && lo <= r[i].id <= hi
    ensures forall id :: lo <= id <= hi && id in m && id in keep ==> Tag(id, m[id]) in r
    ensures forall i, j :: 0 <= i < j < |r| ==> r[i].id < r[j].id
  {
    if lo > hi then []
    else (if lo in m && lo in keep then [Tag(lo, m[lo])] else []) + TagScan(m, keep, lo + 1, hi)
  }

  /** `Tag::create`: INSERT INTO tags, then read the inserted row back. The
      UNIQUE constraint on `name` rejects a name that is already taken. */
  method Create(db: Store, name: string) returns (r: Result<Tag, SqlError>)
    requires db.Valid()
    modifies db
    ensures db.Valid()
    ensures db.files == old(db.files) && db.fileSeq == old(db.fileSeq) && db.links == old(db.links)
    ensures old(HasName(db.tags, name)) ==>
      r == Err(TagNameTaken) && db.tags == old(db.tags) && db.tagSeq == old(db.tagSeq)
    ensures !old(HasName(db.tags, name)) ==>
      && r == Ok(Tag(old(db.tagSeq) + 1, name))
      && db.tagSeq == old(db.tagSeq) + 1
      && db.tags == old(db.tags)[db.tagSeq := name]
    ensures r.Ok? ==> forall id :: id in old(db.tags) ==> id < r.value.id
  {
    if HasName(db.tags, name) {
      r := Err(TagNameTaken);
      return;
    }
    db.tagSeq := db.tagSeq + 1;
    db.tags := db.tags[db.tagSeq := name];
    r := Ok(Tag(db.tagSeq, db.tags[db.tagSeq]));
  }

  /** `unlink_all_files`: DELETE FROM file_tags WHERE tag_id = self.id. */
  method UnlinkAllFiles(db: Store, tag: Tag)
    requires db.Valid()
    modifies db
    ensures db.Valid()
    ensures db.links == set l | l in old(db.links) && l.tagId != tag.id
    ensures !HasRelatedFiles(db, tag)
    ensures db.files == old(db.files) && db.tags == old(db.tags)
    ensures db.fileSeq == old(db.fileSeq) && db.tagSeq == old(db.tagSeq)
  {
    db.links := set l | l in db.links && l.tagId != tag.id;
  }

  /** `Tag::delete`: DELETE FROM tags WHERE id = self.id. Links are not touched. */
  method Delete(db: Store, tag: Tag)
    requires db.Valid()
    modifies db
    ensures db.Valid()
    ensures db.tags == old(db.tags) - {tag.id}
    ensures db.files == old(db.files) && db.links == old(db.links)
    ensures db.fileSeq == old(db.fileSeq) && db.tagSeq == old(db.tagSeq)
  {
    db.tags := db.tags - {tag.id};
  }

  /** `has_related_files`: SELECT 1 FROM file_tags WHERE tag_id = self.id LIMIT 1. */
  predicate HasRelatedFiles(db: Store, tag: Tag)
    reads db
    ensures HasRelatedFiles(db, tag) <==> exists f :: FileTag(f, tag.id) in db.links
  {
    exists l :: l in db.links && l.tagId == tag.id
  }

  /** `find_by_name`: SELECT * FROM tags WHERE name = ? LIMIT 1. */
  function FindByName(db: Store, name: string): (r: Option<Tag>)
    reads db
    ensures r.Some? ==> r.value.name == name && r.value.id in db.tags && db.tags[r.value.id] == name
    ensures db.Valid() ==> (r.Some? <==> HasName(db.tags, name))
    ensures db.Valid() && r.Some? ==> forall id :: id in db.tags && db.tags[id] == name ==> id == r.value.id
  {
    FirstWithNameFinds(db.tags, db.tagSeq, name);
    match FirstWithName(db.tags, name, 1, db.tagSeq)
    case None => None
    case Some(id) => Some(Tag(id, name))
  }

  /** `name_exists`: SELECT 1 FROM tags WHERE name = ? LIMIT 1. */
  predicate NameExists(db: Store, name: string)
    reads db
    ensures db.Valid() ==> (NameExists(db, name) <==> FindByName(db, name).Some?)
  {
    HasName(db.tags, name)
  }

  /** `extract_from_name`: the tag called `name`, or not_found TAG_NOT_FOUND. */
  function ExtractFromName(db: Store, name: string): (r: Result<Tag, ServiceError>)
    reads db
    ensures r.Err? <==> FindByName(db, name).None?
    ensures r.Err? ==> r.error == TagNotFound
    ensures r.Ok? ==> r.value.name == name && r.value.id in db.tags && db.tags[r.value.id] == name
    ensures db.Valid() ==> (r.Ok? <==> HasName(db.tags, name))
  {
    match FindByName(db, name)
    case None => Err(TagNotFound)
    case Some(tag) => Ok(tag)
  }

  /** `find_all_where_in_names`: SELECT * FROM tags WHERE name IN rarray(?).
      Each row that matches comes once, however often its name is listed. */
  function FindAllWhereInNames(db: Store, names: seq<string>): (r: seq<Tag>)
    reads db
    ensures forall i :: 0 <= i < |r| ==> r[i].name in names && r[i].id in db.tags && db.tags[r[i].id] == r[i].name
    ensures forall i, j :: 0 <= i < j < |r| ==> r[i].id < r[j].id
    ensures db.Valid() ==> forall id :: id in db.tags && db.tags[id] in names ==> Tag(id, db.tags[id]) in r
    ensures db.Valid() ==> forall i, j :: 0 <= i < j < |r| ==> r[i].name != r[j].name
  {
    TagScan(db.tags, NamedIds(db.tags, names), 1, db.tagSeq)
  }

  /** `find_all_where_in_ids`: SELECT * FROM tags WHERE id IN rarray(?). */
  function FindAllWhereInIds(db: Store, ids: seq<int>): (r: seq<Tag>)
    reads db
    ensures forall i :: 0 <= i < |r| ==> r[i].id in ids && r[i].id in db.tags && db.tags[r[i].id] == r[i].name
    ensures forall i, j :: 0 <= i < j < |r| ==> r[i].id < r[j].id
    ensures db.Valid() ==> forall id :: id in ids && id in db.tags ==> Tag(id, db.tags[id]) in r
  {
    TagScan(db.tags, Elements(ids), 1, db.tagSeq)
  }

  /** `Tag::all`: SELECT * FROM tags. */
  function All(db: Store): (r: seq<Tag>)
    reads db
    ensures forall i :: 0 <= i < |r| ==> r[i].id in db.tags && db.tags[r[i].id] == r[i].name
    ensures forall i, j :: 0 <= i < j < |r| ==> r[i].id < r[j].id
    ensures db.Valid() ==> forall id :: id in db.tags ==> Tag(id, db.tags[id]) in r
  {
    TagScan(db.tags, db.tags.Keys, 1, db.tagSeq)
  }

  /** The names of a list of tag rows, in order. */
  function NamesOf(tags: seq<Tag>): (r: seq<string>)
    ensures |r| == |tags| && forall i :: 0 <= i < |r| ==> r[i] == tags[i].name
  {
    seq(|tags|, i requires 0 <= i < |tags| => tags[i].name)
  }

  /** The names of a list of tag rows, as a set. */
  function NameSet(tags: seq<Tag>): set<string> {
    Elements(NamesOf(tags))
  }

  /** The ids of a list of tag rows, in order. */
  function IdsOf(tags: seq<Tag>): (r: seq<int>)
    ensures |r| == |tags| && forall i :: 0 <= i < |r| ==> r[i] == tags[i].id
  {
    seq(|tags|, i requires 0 <= i < |tags| => tags[i].id)
  }

  /** The requested names that name some row of `m`. */
  ghost function FoundNames(m: map<int, string>, names: seq<string>): set<string> {
    set n | n in names && HasName(m, n)
  }

  /** The ids `name IN (...)` keeps: those whose name is requested. */
  function NamedIds(m: map<int, string>, names: seq<string>): set<int> {
    set id | id in m && m[id] in names
  }

  /** The names the scan finds are the requested names that exist. */
  lemma ScanNamesFound(m: map<int, string>, names: seq<string>, counter: nat)
    requires IdsAssigned(m, counter)
    ensures NameSet(TagScan(m, NamedIds(m, names), 1, counter)) == FoundNames(m, names)
  {
    var r := TagScan(m, NamedIds(m, names), 1, counter);
    forall n | n in FoundNames(m, names) ensures n in NameSet(r) {
      var id :| id in m && m[id] == n;
      assert Tag(id, n) in r;
    }
  }

  /** Under the UNIQUE constraint the scan yields each found name once. */
  lemma ScanNamesDistinct(m: map<int, string>, names: seq<string>, counter: nat)
    requires UniqueNames(m)
    ensures |TagScan(m, NamedIds(m, names), 1, counter)| == |NameSet(TagScan(m, NamedIds(m, names), 1, counter))|
  {
    var r := TagScan(m, NamedIds(m, names), 1, counter);
    var ns := NamesOf(r);
    forall i, j | 0 <= i < j < |ns| ensures ns[i] != ns[j] {
      assert r[i].id < r[j].id;
    }
    assert Distinct(ns);
    ElementsCard(ns);
  }

  /** The names found by `find_all_where_in_names` are exactly the requested
      names that exist, each once; so there are never more rows than names,
      and there are as many only when the names are distinct and all exist. */
  lemma WhereInNamesCount(db: Store, names: seq<string>)
    requires db.Valid()
    ensures var r := FindAllWhereInNames(db, names);
      && NameSet(r) == FoundNames(db.tags, names)
      && |r| == |FoundNames(db.tags, names)|
      && |r| <= |names|
      && (|r| == |names| <==> Distinct(names) && forall i :: 0 <= i < |names| ==> HasName(db.tags, names[i]))
  {
    ScanNamesFound(db.tags, names, db.tagSeq);
    ScanNamesDistinct(db.tags, names, db.tagSeq);
    CountFound(db.tags, names);
  }

  /** Counting argument: the found names are at most the distinct requested
      names, and all of them exactly when every requested name exists. */
  lemma CountFound(m: map<int, string>, names: seq<string>)
    ensures |FoundNames(m, names)| <= |names|
    ensures |FoundNames(m, names)| == |names| <==>
      Distinct(names) && forall i :: 0 <= i < |names| ==> HasName(m, names[i])
  {
    var found := FoundNames(m, names);
    ElementsCard(names);
    SubsetCard(found, Elements(names));
    if |found| == |names| {
      assert found == Elements(names);
      forall i | 0 <= i < |names| ensures HasName(m, names[i]) {
        assert names[i] in Elements(names);
      }
    }
    if Distinct(names) && forall i :: 0 <= i < |names| ==> HasName(m, names[i]) {
      forall n | n in Elements(names) ensures n in found {
        var k :| 0 <= k < |names| && names[k] == n;
      }
      assert found == Elements(names);
    }
  }

  /** A full scan over the assigned ids yields one row per tag. */
  lemma ScanAllCount(m: map<int, string>, counter: nat)
    requires IdsAssigned(m, counter)
    ensures |TagScan(m, m.Keys, 1, counter)| == |m|
  {
    var ids := IdsOf(TagScan(m, m.Keys, 1, counter));
    ScanAllIds(m, counter);
    IncreasingIsDistinct(ids);
    ElementsCard(ids);
    assert |m.Keys| == |m|;
  }

  /** The ids of a full scan are exactly the ids of the table. */
  lemma ScanAllIds(m: map<int, string>, counter: nat)
    requires IdsAssigned(m, counter)
    ensures Elements(IdsOf(TagScan(m, m.Keys, 1, counter))) == m.Keys
  {
    var r := TagScan(m, m.Keys, 1, counter);
    var ids := IdsOf(r);
    forall id | id in m ensures id in Elements(ids) {
      assert Tag(id, m[id]) in r;
      var k :| 0 <= k < |r| && r[k] == Tag(id, m[id]);
      assert ids[k] == id;
    }
    forall id | id in Elements(ids) ensures id in m {
      var k :| 0 <= k < |ids| && ids[k] == id;
      assert r[k].id in m;
    }
  }

  /** `all` yields one row per tag. */
  lemma AllCount(db: Store)
    requires db.Valid()
    ensures |All(db)| == |db.tags|
  {
    ScanAllCount(db.tags, db.tagSeq);
  }

  /** A full scan over the assigned ids yields the tag names, each once. */
  lemma ScanAllNames(m: map<int, string>, counter: nat)
    requires IdsAssigned(m, counter) && UniqueNames(m)
    ensures Distinct(NamesOf(TagScan(m, m.Keys, 1, counter)))
    ensures forall n :: n in NamesOf(TagScan(m, m.Keys, 1, counter)) <==> HasName(m, n)
  {
    var r := TagScan(m, m.Keys, 1, counter);
    var ns := NamesOf(r);
    forall i, j | 0 <= i < j < |ns| ensures ns[i] != ns[j] {
      assert r[i].id < r[j].id;
    }
    ScanAllHasNames(m, counter);
  }

  lemma ScanAllHasNames(m: map<int, string>, counter: nat)
    requires IdsAssigned(m, counter)
    ensures forall n :: n in NamesOf(TagScan(m, m.Keys, 1, counter)) <==> HasName(m, n)
  {
    var r := TagScan(m, m.Keys, 1, counter);
    var ns := NamesOf(r);
    forall n | HasName(m, n) ensures n in ns {
      var id :| id in m && m[id] == n;
      assert Tag(id, n) in r;
      var k :| 0 <= k < |r| && r[k] == Tag(id, n);
      assert ns[k] == n;
    }
    forall n | n in ns ensures HasName(m, n) {
      var k :| 0 <= k < |ns| && ns[k] == n;
      assert r[k].id in m && m[r[k].id] == n;
    }
  }
}
