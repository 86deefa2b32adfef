/** The tag handlers of src/serv/routes/api/tags.rs. */
module TagsApi {
  import opened Wrappers
  import opened Seqs
  import opened ServiceErrors
  import opened Database
  import TagModel

  const DeleteConfirmationMessage: string :=
    "Tag has related files, so all files with this tag will be unlinked. Confirm action by adding `?confirm=true` to query url."

  /** `create`: a taken name is TAG_DUPLICATION; otherwise the tag is inserted
      under the next id and returned. The insert cannot then hit the UNIQUE
      constraint, so its SQL error path is never taken. */
  method Create(db: Store, name: string) returns (r: Result<Tag, ServiceError>)
    requires db.Valid()
    modifies db
    ensures db.Valid()
    ensures old(db.LinksAssigned()) ==> db.LinksAssigned()
    ensures db.files == old(db.files) && db.links == old(db.links) && db.fileSeq == old(db.fileSeq)
    ensures old(HasName(db.tags, name)) ==> r == Err(TagDuplication) && unchanged(db)
    ensures !old(HasName(db.tags, name)) ==>
      && r == Ok(Tag(old(db.tagSeq) + 1, name))
      && db.tagSeq == old(db.tagSeq) + 1
      && db.tags == old(db.tags)[db.tagSeq := name]
  {
    if TagModel.NameExists(db, name) {
      return Err(TagDuplication);
    }
    var created := TagModel.Create(db, name);
    r := match created
      case Ok(tag) => Ok(tag)
      case Err(e) => Err(FromSql(e));
  }

  /** `delete`: an unknown name is TAG_NOT_FOUND; a tag with linked files is
      only removed, together with its links, when `confirm=true` was given;
      otherwise the answer is CONFIRMATION_REQUIRED and nothing changes. */
  method Delete(db: Store, name: string, confirm: Option<bool>) returns (r: Result<(), ServiceError>)
    requires db.Valid()
    modifies db
    ensures db.Valid()
    ensures old(db.LinksAssigned()) ==> db.LinksAssigned()
    ensures old(TagModel.FindByName(db, name)).None? ==> r == Err(TagModel.TagNotFound) && unchanged(db)
    ensures old(TagModel.FindByName(db, name)).Some? ==>
      var tag := old(TagModel.FindByName(db, name)).value;
      var linked := old(exists f :: FileTag(f, tag.id) in db.links);
      && (linked && confirm != Some(true) ==>
            r == Err(WithMessage(ConfirmationRequired, DeleteConfirmationMessage)) && unchanged(db))
      && (!linked || confirm == Some(true) ==>
            && r == Ok(())
            && db.tags == old(db.tags) - {tag.id}
            && db.links == (set l | l in old(db.links) && l.tagId != tag.id)
            && !HasName(db.tags, name)
            && db.files == old(db.files) && db.fileSeq == old(db.fileSeq) && db.tagSeq == old(db.tagSeq))
  {
    var found := TagModel.ExtractFromName(db, name);
    if found.Err? {
      return Err(found.error);
    }
    var tag := found.value;
    var hasFiles := TagModel.HasRelatedFiles(db, tag);
    if hasFiles && confirm != Some(true) {
      return Err(WithMessage(ConfirmationRequired, DeleteConfirmationMessage));
    }
    if hasFiles {
      TagModel.UnlinkAllFiles(db, tag);
    } else {
      assert db.links == set l | l in db.links && l.tagId != tag.id;
    }
    TagModel.Delete(db, tag);
    r := Ok(());
  }

  /** `list`: the names of all tags. */
  function List(db: Store): (names: seq<string>)
    reads db
    ensures |names| == |TagModel.All(db)|
    ensures forall i :: 0 <= i < |names| ==> names[i] == TagModel.All(db)[i].name
  {
    TagModel.NamesOf(TagModel.All(db))
  }

  /** The list holds every tag name exactly once and nothing else. */
  lemma ListNames(db: Store)
    requires db.Valid()
    ensures |List(db)| == |db.tags|
    ensures Distinct(List(db))
    ensures forall n :: n in List(db) <==> HasName(db.tags, n)
  {
    TagModel.AllCount(db);
    TagModel.ScanAllNames(db.tags, db.tagSeq);
  }
}
