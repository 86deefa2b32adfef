/** Scenarios of the handlers on small stores, with their outcomes proved,
    showing three behaviours of the code as written: the file row of a failed `create_with_tags` stays,
    `add` on an existing link ends in a SQL error, and `remove` tests and
    deletes the link with file and tag ids exchanged. */
module Scenarios {
  import opened Wrappers
  import opened ServiceErrors
  import opened Database
  import TagModel
  import FileModel
  import Relationships
  import FilesApi

  /** A store with files "a" (id 1) and "b" (id 2) and tags "t" (id 1) and
      "u" (id 2), with no links. */
  method TwoFilesTwoTags() returns (db: Store)
    ensures fresh(db) && db.Valid()
    ensures db.files == map[1 := "a", 2 := "b"] && db.fileSeq == 2
    ensures db.tags == map[1 := "t", 2 := "u"] && db.tagSeq == 2
    ensures db.links == {}
  {
    db := new Store();
    var f1 := FileModel.Insert(db, "a");
    assert db.files == map[1 := "a"];
    assert !HasName(db.files, "b");
    var f2 := FileModel.Insert(db, "b");
    var t1 := TagModel.Create(db, "t");
    assert db.tags == map[1 := "t"];
    assert !HasName(db.tags, "u");
    var t2 := TagModel.Create(db, "u");
  }

  /** `create_with_tags` with a repeated tag id: the second link violates the
      primary key, the links roll back, yet the file row inserted before the
      transaction remains. */
  method CreateWithRepeatedTagKeepsFile() returns (r: Result<File, SqlError>, fileKept: bool, linked: bool)
    ensures r == Err(FileTagTaken)
    ensures fileKept && !linked
  {
    var db := new Store();
    assert !FileModel.Insertable(db.links, 1, [7, 7]) by {
      assert [7, 7][0] == [7, 7][1];
    }
    r := FileModel.CreateWithTags(db, "report", [7, 7]);
    fileKept := FileModel.NameExists(db, "report");
    linked := FileTag(1, 7) in db.links;
  }

  /** `add` of a link that is already there: the swapped check misses it, and
      the insert fails on the primary key, which surfaces as a 500 SQL error
      instead of RELATIONSHIP_EXISTS. */
  method AddExistingLinkIsSqlError() returns (r: Result<(), ServiceError>)
    ensures r == Err(FromSql(FileTagTaken))
    ensures StatusCode(r.error) == INTERNAL_SERVER_ERROR
  {
    var db := TwoFilesTwoTags();
    var linked := Relationships.CreateFileTag(db, 2, 1);
    TagNamedT(db);
    r := FilesApi.Add(db, 2, "t");
  }

  /** `remove` of tag "t" (id 1) from file 2 deletes the link of file 1 to
      tag 2 and leaves the link of file 2 to tag 1 in place. */
  method RemoveDeletesSwappedLink() returns (r: Result<(), ServiceError>, askedKept: bool, otherGone: bool)
    ensures r == Ok(())
    ensures askedKept && otherGone
  {
    var db := TwoFilesTwoTags();
    var l1 := Relationships.CreateFileTag(db, 2, 1);
    var l2 := Relationships.CreateFileTag(db, 1, 2);
    TagNamedT(db);
    r := FilesApi.Remove(db, 2, "t");
    askedKept := FileTag(2, 1) in db.links;
    otherGone := FileTag(1, 2) !in db.links;
  }

  /** `remove` of an existing link whose swapped twin is absent answers
      RELATIONSHIP_NOT_FOUND and changes nothing. */
  method RemoveMissesExistingLink() returns (r: Result<(), ServiceError>, kept: bool)
    ensures r == Err(FilesApi.RelationshipNotFound)
    ensures kept
  {
    var db := TwoFilesTwoTags();
    var l1 := Relationships.CreateFileTag(db, 2, 1);
    TagNamedT(db);
    r := FilesApi.Remove(db, 2, "t");
    kept := FileTag(2, 1) in db.links;
  }

  /** In these stores the tag named "t" is the one with id 1. */
  lemma TagNamedT(db: Store)
    requires db.Valid() && db.tags == map[1 := "t", 2 := "u"]
    ensures TagModel.FindByName(db, "t") == Some(Tag(1, "t"))
  {
    assert 1 in db.tags && db.tags[1] == "t";
    var found := TagModel.FindByName(db, "t");
    assert found.Some? && found.value.id in db.tags && db.tags[found.value.id] == "t";
  }
}
