/** The `file_tags` statements of src/models/relationships.rs. */
module Relationships {
  import opened Wrappers
  import opened Seqs
  import opened ServiceErrors
  import opened Database
  import Sql

  /** The condition `tag_id = ? AND file_id = ?` with its two positional
      parameters bound in the order given. */
  predicate WhereTagIdAndFileId(l: FileTag, first: int, second: int) {
    l.tagId == first && l.fileId == second
  }

  /** `file_id_and_tag_id_exists(file_id, tag_id)`. The parameters are bound as
      `{file_id, tag_id}` into `tag_id = ? AND file_id = ?`, so the query looks
      for the swapped pair: a link of file `tagId` to tag `fileId`. */
  predicate FileIdAndTagIdExists(db: Store, fileId: int, tagId: int)
    reads db
    ensures FileIdAndTagIdExists(db, fileId, tagId) <==> FileTag(tagId, fileId) in db.links
  {
    exists l :: l in db.links && WhereTagIdAndFileId(l, fileId, tagId)
  }

  /** `delete_between_file_id_and_tag_id(file_id, tag_id)`, bound the same way,
      so it deletes the swapped pair. It runs the DELETE through `query_row`,
      which finds no row to return, so the result is always `false`. */
  method DeleteBetweenFileIdAndTagId(db: Store, fileId: int, tagId: int) returns (deleted: bool)
    requires db.Valid()
    modifies db
    ensures db.Valid()
    ensures db.links == old(db.links) - {FileTag(tagId, fileId)}
    ensures !deleted
    ensures db.files == old(db.files) && db.tags == old(db.tags)
    ensures db.fileSeq == old(db.fileSeq) && db.tagSeq == old(db.tagSeq)
  {
    db.links := set l | l in db.links && !WhereTagIdAndFileId(l, fileId, tagId);
    deleted := false;
  }

  /** `FileTag::create(file_id, tag_id)`: INSERT INTO file_tags (file_id, tag_id),
      in the right order. The primary key rejects a pair that is already there. */
  method CreateFileTag(db: Store, fileId: int, tagId: int) returns (r: Result<(), SqlError>)
    requires db.Valid()
    modifies db
    ensures db.Valid()
    ensures old(FileTag(fileId, tagId) in db.links) ==> r == Err(FileTagTaken) && unchanged(db)
    ensures !old(FileTag(fileId, tagId) in db.links) ==>
      r == Ok(()) && db.links == old(db.links) + {FileTag(fileId, tagId)}
    ensures db.files == old(db.files) && db.tags == old(db.tags)
    ensures db.fileSeq == old(db.fileSeq) && db.tagSeq == old(db.tagSeq)
  {
    var link := FileTag(fileId, tagId);
    if link in db.links {
      return Err(FileTagTaken);
    }
    db.links := db.links + {link};
    r := Ok(());
  }

  /** `FileTag::all_in_file_ids`: SELECT * FROM file_tags WHERE file_id IN (?,...),
      one placeholder per id. The rows come in an order the model leaves open;
      every matching link comes exactly once. */
  method AllInFileIds(db: Store, fileIds: seq<int>) returns (rows: seq<FileTag>)
    ensures forall l :: l in rows <==> l in db.links && l.fileId in fileIds
    ensures Distinct(rows)
  {
    var qs := Sql.Placeholders(|fileIds|);
    // one `?` per id, as many as the values bound
    Sql.PlaceholderCounts(qs, |fileIds|);
    var matching := set l | l in db.links && l.fileId in fileIds;
    var pending := matching;
    rows := [];
    while pending != {}
      invariant pending <= matching
      invariant forall l :: l in rows <==> l in matching && l !in pending
      invariant Distinct(rows)
      decreases |pending|
    {
      var l :| l in pending;
      rows := rows + [l];
      pending := pending - {l};
    }
  }

  /** The existence check tests the pair it is given only when the pair is
      symmetric: with a single link of file 1 to tag 2, it reports no link for
      (file 1, tag 2) and a link for (file 2, tag 1). */
  lemma ExistsCheckIsSwapped(db: Store)
    requires db.links == {FileTag(1, 2)}
    ensures !FileIdAndTagIdExists(db, 1, 2)
    ensures FileIdAndTagIdExists(db, 2, 1)
  {
  }
}
