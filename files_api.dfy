/** The file handlers of src/serv/routes/api/files.rs, each a check-then-mutate
    sequence over the store, and the tag resolution they share. */
module FilesApi {
  import opened Wrappers
  import opened Seqs
  import opened ServiceErrors
  import opened Database
  import opened TagModel
  import FileModel
  import Relationships

  const Duplication: ServiceError :=
    BadRequest("DUPLICATION", "File with specified name already exists. You must edit or delete it instead of recreating.")

  const RelationshipNotFound: ServiceError :=
    NotFound("RELATIONSHIP_NOT_FOUND", "File does not have specified tag or does not exist.")

  const RelationshipExists: ServiceError :=
    BadRequest("RELATIONSHIP_EXISTS", "File already has specified tag.")

  /** The error of `find_tags_by_names`, carrying the names that were not found. */
  function TagsNotFound(lost: seq<string>): (e: ServiceError)
    ensures StatusCode(e) == BAD_REQUEST && e.status == "TAGS_NOT_FOUND" && e.details == Some(lost)
  {
    WithDetails(BadRequest("TAGS_NOT_FOUND",
      "Could not found some tags to create file. Check details to get list of unknown tags."), lost)
  }

  // ---- splitting the `tags` query parameter ----

  /** `str::split(sep)`: the pieces between separators, always at least one. */
  function Split(s: string, sep: char): (parts: seq<string>)
    ensures |parts| >= 1
    ensures forall i :: 0 <= i < |parts| ==> sep !in parts[i]
  {
    if s == [] then [""]
    else
      var rest := Split(s[1..], sep);
      if s[0] == sep then [""] + rest else [[s[0]] + rest[0]] + rest[1..]
  }

  /** The pieces put back together with `sep` between them. */
  function Join(parts: seq<string>, sep: char): string {
    if parts == [] then "" else if |parts| == 1 then parts[0] else parts[0] + [sep] + Join(parts[1..], sep)
  }

  /** Splitting loses nothing: joining the pieces gives the parameter back. */
  lemma {:induction false} JoinSplit(s: string, sep: char)
    ensures Join(Split(s, sep), sep) == s
  {
    if s != [] {
      var rest := Split(s[1..], sep);
      JoinSplit(s[1..], sep);
      if s[0] == sep {
        assert Split(s, sep) == [""] + rest;
        assert ([""] + rest)[1..] == rest;
      } else {
        var parts := Split(s, sep);
        assert parts == [[s[0]] + rest[0]] + rest[1..];
        if |rest| == 1 {
          assert rest == [rest[0]];
        } else {
          assert parts[1..] == rest[1..];
          assert Join(rest, sep) == rest[0] + [sep] + Join(rest[1..], sep);
        }
      }
    }
  }

  /** Splitting a join of separator-free pieces gives the pieces back. */
  lemma {:induction false} SplitJoin(parts: seq<string>, sep: char)
    requires |parts| >= 1
    requires forall i :: 0 <= i < |parts| ==> sep !in parts[i]
    ensures Split(Join(parts, sep), sep) == parts
    decreases |parts|, |parts[0]|
  {
    var p := parts[0];
    if p == [] {
      if |parts| > 1 {
        assert Join(parts, sep) == [sep] + Join(parts[1..], sep);
        assert ([sep] + Join(parts[1..], sep))[1..] == Join(parts[1..], sep);
        SplitJoin(parts[1..], sep);
        assert [""] + parts[1..] == parts;
      } else {
        assert parts == [""];
      }
    } else {
      var shorter := [p[1..]] + parts[1..];
      assert shorter[1..] == parts[1..];
      forall i | 0 <= i < |shorter| ensures sep !in shorter[i] {
        if i == 0 { assert forall c :: c in p[1..] ==> c in p; }
      }
      SplitJoin(shorter, sep);
      JoinFirst(parts, sep);
      assert p[0] in p;
      assert [p[0]] + p[1..] == p;
      assert [[p[0]] + p[1..]] + parts[1..] == parts;
    }
  }

  /** A join whose first piece is not empty starts with that piece's first
      character, followed by the join with it dropped. */
  lemma JoinFirst(parts: seq<string>, sep: char)
    requires |parts| >= 1 && parts[0] != []
    ensures var j := Join(parts, sep);
      j != [] && j[0] == parts[0][0] && j[1..] == Join([parts[0][1..]] + parts[1..], sep)
  {
    var p := parts[0];
    var shorter := [p[1..]] + parts[1..];
    assert shorter[1..] == parts[1..];
    if |parts| == 1 {
      assert Join(parts, sep) == p && Join(shorter, sep) == p[1..];
    } else {
      assert Join(parts, sep) == p + [sep] + Join(parts[1..], sep);
      assert Join(shorter, sep) == p[1..] + [sep] + Join(parts[1..], sep);
    }
  }

  // ---- find_tags_by_names ----

  /** The requested names that no found tag carries, in request order and
      with their repetitions. */
  function Lost(names: seq<string>, found: set<string>): (lost: seq<string>)
    ensures |lost| <= |names|
    ensures forall x :: x in lost <==> x in names && x !in found
  {
    if names == [] then []
    else Lost(names[..|names| - 1], found) + (if names[|names| - 1] in found then [] else [names[|names| - 1]])
  }

  lemma {:induction false} LostCounts(names: seq<string>, found: set<string>, x: string)
    ensures multiset(Lost(names, found))[x] == if x in found then 0 else multiset(names)[x]
  {
    if names != [] {
      var init := names[..|names| - 1];
      LostCounts(init, found, x);
      assert names == init + [names[|names| - 1]];
    }
  }

  /** What `find_tags_by_names` returns: the tags found by name when there are
      as many as names asked for, the TAGS_NOT_FOUND error otherwise. */
  function ResolveTags(db: Store, names: seq<string>): (r: Result<seq<Tag>, ServiceError>)
    reads db
    ensures r.Ok? ==> |r.value| == |names|
  {
    var tags := FindAllWhereInNames(db, names);
    if |tags| != |names| then Err(TagsNotFound(Lost(names, NameSet(tags)))) else Ok(tags)
  }

  /** The first loop of `find_tags_by_names`: the found names into a hash set. */
  method CollectNames(tags: seq<Tag>) returns (hashset: set<string>)
    ensures hashset == NameSet(tags)
  {
    hashset := {};
    var i := 0;
    while i < |tags|
      invariant 0 <= i <= |tags|
      invariant hashset == NameSet(tags[..i])
    {
      assert tags[..i + 1] == tags[..i] + [tags[i]];
      hashset := hashset + {tags[i].name};
      i := i + 1;
    }
    assert tags[..i] == tags;
  }

  /** The second loop of `find_tags_by_names`: the requested names missing
      from the hash set, in request order. */
  method CollectLost(names: seq<string>, hashset: set<string>) returns (lost: seq<string>)
    ensures lost == Lost(names, hashset)
  {
    lost := [];
    var j := 0;
    while j < |names|
      invariant 0 <= j <= |names|
      invariant lost == Lost(names[..j], hashset)
    {
      assert names[..j + 1][..j] == names[..j];
      if names[j] !in hashset {
        lost := lost + [names[j]];
      }
      j := j + 1;
    }
    assert names[..j] == names;
  }

  /** `find_tags_by_names`: it looks the names up in one query; when the count
      differs it collects the found names into a hash set and reports the
      requested names missing from it. */
  method FindTagsByNames(db: Store, names: seq<string>) returns (r: Result<seq<Tag>, ServiceError>)
    requires db.Valid()
    ensures r == ResolveTags(db, names)
  {
    var tags := FindAllWhereInNames(db, names);
    if |tags| != |names| {
      var hashset := CollectNames(tags);
      WhereInNamesCount(db, names);
      // `Vec::with_capacity(names.len() - tags.len())`: a usize subtraction that cannot underflow
      ghost var capacity: nat := |names| - |tags|;
      var lost := CollectLost(names, hashset);
      r := Err(TagsNotFound(lost));
    } else {
      r := Ok(tags);
    }
  }

  /** Resolution succeeds exactly when the names are distinct and all exist; the
      tags it then returns carry exactly the requested names. */
  lemma ResolveTagsSucceeds(db: Store, names: seq<string>)
    requires db.Valid()
    ensures ResolveTags(db, names).Ok? <==>
      Distinct(names) && forall i :: 0 <= i < |names| ==> HasName(db.tags, names[i])
    ensures ResolveTags(db, names).Ok? ==> NameSet(ResolveTags(db, names).value) == Elements(names)
  {
    WhereInNamesCount(db, names);
    if ResolveTags(db, names).Ok? {
      forall n | n in Elements(names) ensures n in FoundNames(db.tags, names) {
        var k :| 0 <= k < |names| && names[k] == n;
      }
    }
  }

  /** On failure the details list each requested name that is not a tag name,
      as often as it was requested, and nothing else. */
  lemma ResolveTagsLost(db: Store, names: seq<string>, x: string)
    requires db.Valid()
    requires ResolveTags(db, names).Err?
    ensures ResolveTags(db, names).error.details.Some?
    ensures var lost := ResolveTags(db, names).error.details.value;
      multiset(lost)[x] == if HasName(db.tags, x) then 0 else multiset(names)[x]
  {
    var tags := FindAllWhereInNames(db, names);
    WhereInNamesCount(db, names);
    LostCounts(names, NameSet(tags), x);
    if HasName(db.tags, x) && x !in names {
      assert multiset(names)[x] == 0;
    }
  }

  /** Asking for an existing tag twice still fails, and since every name
      exists, the list of missing names is empty. */
  lemma RepeatedNameFails(db: Store, names: seq<string>)
    requires db.Valid()
    requires forall i :: 0 <= i < |names| ==> HasName(db.tags, names[i])
    requires !Distinct(names)
    ensures ResolveTags(db, names) == Err(TagsNotFound([]))
  {
    ResolveTagsSucceeds(db, names);
    var lost := ResolveTags(db, names).error.details.value;
    forall x ensures multiset(lost)[x] == 0 {
      ResolveTagsLost(db, names, x);
      RequestedExists(db.tags, names, x);
    }
    assert multiset(lost) == multiset{};
    assert |multiset(lost)| == |lost|;
  }

  lemma RequestedExists(m: map<int, string>, names: seq<string>, x: string)
    requires forall i :: 0 <= i < |names| ==> HasName(m, names[i])
    ensures multiset(names)[x] > 0 ==> HasName(m, x)
  {
    if multiset(names)[x] > 0 {
      assert x in names;
      var k :| 0 <= k < |names| && names[k] == x;
    }
  }

  // ---- handlers ----

  /** `create`: reject a taken name, resolve the tag names, then create the
      file with the links to the resolved tag ids. The response is the row
      read back, with `tags` set to the resolved tags. */
  method Create(db: Store, name: string, tagNames: seq<string>) returns (r: Result<File, ServiceError>)
    requires db.Valid()
    modifies db
    ensures db.Valid()
    ensures old(db.LinksAssigned()) ==> db.LinksAssigned()
    ensures old(HasName(db.files, name)) ==> r == Err(Duplication) && unchanged(db)
    ensures !old(HasName(db.files, name)) && old(ResolveTags(db, tagNames)).Err? ==>
      r == Err(old(ResolveTags(db, tagNames)).error) && unchanged(db)
    ensures !old(HasName(db.files, name)) && old(ResolveTags(db, tagNames)).Ok? ==>
      var tags := old(ResolveTags(db, tagNames)).value;
      var id := old(db.fileSeq) + 1;
      && db.files == old(db.files)[id := name] && db.fileSeq == id
      && db.tags == old(db.tags) && db.tagSeq == old(db.tagSeq)
      && (r.Ok? <==> forall i :: 0 <= i < |tags| ==> FileTag(id, tags[i].id) !in old(db.links))
      && (r.Ok? ==> r.value == File(id, name, tags) && db.links == old(db.links) + FileModel.LinksFor(id, IdsOf(tags)))
      && (r.Err? ==> r.error == FromSql(FileTagTaken) && db.links == old(db.links))
      && (old(db.LinksAssigned()) ==> r.Ok?)
  {
    if FileModel.NameExists(db, name) {
      return Err(Duplication);
    }
    var found := FindTagsByNames(db, tagNames);
    if found.Err? {
      return Err(found.error);
    }
    IncreasingIsDistinct(IdsOf(found.value));
    r := CreateLinked(db, name, found.value);
  }

  /** The rest of `create` once the name is free and the tags are resolved:
      the file row, then its links, in one transaction. */
  method CreateLinked(db: Store, name: string, tags: seq<Tag>) returns (r: Result<File, ServiceError>)
    requires db.Valid() && !HasName(db.files, name) && Distinct(IdsOf(tags))
    modifies db
    ensures db.Valid()
    ensures old(db.LinksAssigned()) ==> db.LinksAssigned()
    ensures var id := old(db.fileSeq) + 1;
      && db.files == old(db.files)[id := name] && db.fileSeq == id
      && db.tags == old(db.tags) && db.tagSeq == old(db.tagSeq)
      && (r.Ok? <==> forall i :: 0 <= i < |tags| ==> FileTag(id, tags[i].id) !in old(db.links))
      && (r.Ok? ==> r.value == File(id, name, tags) && db.links == old(db.links) + FileModel.LinksFor(id, IdsOf(tags)))
      && (r.Err? ==> r.error == FromSql(FileTagTaken) && db.links == old(db.links))
      && (old(db.LinksAssigned()) ==> r.Ok?)
  {
    var ids := IdsOf(tags);
    ghost var id := db.fileSeq + 1;
    ghost var links := db.links;
    assert FileModel.Insertable(links, id, ids) <==>
      forall i :: 0 <= i < |tags| ==> FileTag(id, tags[i].id) !in links;
    var created := FileModel.CreateWithTags(db, name, ids);
    if created.Err? {
      return Err(FromSql(created.error));
    }
    r := Ok(created.value.(tags := tags));
  }

  /** `list`: split the `tags` parameter on commas, resolve the names, and run
      the paged query on their ids. The `exact` flag is accepted but the page
      query takes no such parameter, so it has no effect. */
  method List(db: Store, tagsQuery: string, page: nat, exact: Option<bool>, perPage: nat)
    returns (r: Result<seq<File>, ServiceError>)
    requires db.Valid()
    requires page < 0x1_0000 && perPage < 0x1_0000_0000
    ensures var names := Split(tagsQuery, ',');
      && (ResolveTags(db, names).Err? ==> r == Err(ResolveTags(db, names).error))
      && (ResolveTags(db, names).Ok? ==>
            r == Ok(FileModel.Page(db, IdsOf(ResolveTags(db, names).value), perPage, page)))
  {
    var names := Split(tagsQuery, ',');
    var found := FindTagsByNames(db, names);
    if found.Err? {
      return Err(found.error);
    }
    var ids := IdsOf(found.value);
    var files := FileModel.FindSpecificAmountByTagsIdsOnPage(db, ids, perPage, page);
    r := Ok(files);
  }

  /** `delete`: find the file by name, remove all its links, then its row. */
  method Delete(db: Store, filename: string) returns (r: Result<(), ServiceError>)
    requires db.Valid()
    modifies db
    ensures db.Valid()
    ensures old(db.LinksAssigned()) ==> db.LinksAssigned()
    ensures old(FileModel.FindByName(db, filename)).None? ==> r == Err(FileModel.FileNotFound) && unchanged(db)
    ensures old(FileModel.FindByName(db, filename)).Some? ==>
      var id := old(FileModel.FindByName(db, filename)).value.id;
      && r == Ok(())
      && db.files == old(db.files) - {id}
      && db.links == (set l | l in old(db.links) && l.fileId != id)
      && (forall t :: FileTag(id, t) !in db.links)
      && db.tags == old(db.tags) && db.fileSeq == old(db.fileSeq) && db.tagSeq == old(db.tagSeq)
  {
    var file := FileModel.ExtractFromName(db, filename);
    if file.Err? {
      return Err(file.error);
    }
    FileModel.UnlinkAllTags(db, file.value);
    FileModel.Delete(db, file.value);
    r := Ok(());
  }

  /** `remove`: find the tag, and delete the link when the existence check
      holds. Both the check and the delete bind their arguments swapped, so
      the link they test and delete is the one of file `tag.id` to tag `fileId`. */
  method Remove(db: Store, fileId: int, tagName: string) returns (r: Result<(), ServiceError>)
    requires db.Valid()
    modifies db
    ensures db.Valid()
    ensures old(db.LinksAssigned()) ==> db.LinksAssigned()
    ensures old(FindByName(db, tagName)).None? ==> r == Err(TagNotFound) && unchanged(db)
    ensures old(FindByName(db, tagName)).Some? ==>
      var tagId := old(FindByName(db, tagName)).value.id;
      && (old(FileTag(tagId, fileId) in db.links) ==>
            && r == Ok(())
            && db.links == old(db.links) - {FileTag(tagId, fileId)}
            && db.files == old(db.files) && db.tags == old(db.tags)
            && db.fileSeq == old(db.fileSeq) && db.tagSeq == old(db.tagSeq))
      && (!old(FileTag(tagId, fileId) in db.links) ==> r == Err(RelationshipNotFound) && unchanged(db))
  {
    var tag := ExtractFromName(db, tagName);
    if tag.Err? {
      return Err(tag.error);
    }
    if Relationships.FileIdAndTagIdExists(db, fileId, tag.value.id) {
      var _ := Relationships.DeleteBetweenFileIdAndTagId(db, fileId, tag.value.id);
      r := Ok(());
    } else {
      r := Err(RelationshipNotFound);
    }
  }

  /** `add`: find the tag; refuse when the (swapped) existence check holds;
      otherwise require the file id to exist and insert the link
      `(fileId, tag.id)`. The guard does not look at the pair it inserts, so
      adding a link that is already there ends in the primary-key error. */
  method Add(db: Store, fileId: int, tagName: string) returns (r: Result<(), ServiceError>)
    requires db.Valid()
    modifies db
    ensures db.Valid()
    ensures old(db.LinksAssigned()) ==> db.LinksAssigned()
    ensures r.Err? ==> unchanged(db)
    ensures old(FindByName(db, tagName)).None? ==> r == Err(TagNotFound)
    ensures old(FindByName(db, tagName)).Some? ==>
      var tagId := old(FindByName(db, tagName)).value.id;
      && (old(FileTag(tagId, fileId) in db.links) ==> r == Err(RelationshipExists))
      && (!old(FileTag(tagId, fileId) in db.links) && fileId !in old(db.files) ==>
            r == Err(FileModel.FileNotFound))
      && (!old(FileTag(tagId, fileId) in db.links) && fileId in old(db.files) && old(FileTag(fileId, tagId) in db.links) ==>
            r == Err(FromSql(FileTagTaken)))
      && (!old(FileTag(tagId, fileId) in db.links) && fileId in old(db.files) && !old(FileTag(fileId, tagId) in db.links) ==>
            && r == Ok(())
            && db.links == old(db.links) + {FileTag(fileId, tagId)}
            && db.files == old(db.files) && db.tags == old(db.tags)
            && db.fileSeq == old(db.fileSeq) && db.tagSeq == old(db.tagSeq))
  {
    var tag := ExtractFromName(db, tagName);
    if tag.Err? {
      return Err(tag.error);
    }
    if Relationships.FileIdAndTagIdExists(db, fileId, tag.value.id) {
      return Err(RelationshipExists);
    }
    var present := FileModel.ExtractIdExists(db, fileId);
    if present.Err? {
      return Err(present.error);
    }
    var created := Relationships.CreateFileTag(db, fileId, tag.value.id);
    if created.Err? {
      return Err(FromSql(created.error));
    }
    r := Ok(());
  }
}
