/** The SQLite database as abstract state: the three tables of the schema in
    src/config.rs and the AUTOINCREMENT counters behind the two id columns. */
module Database {
  import opened Wrappers
  import opened ServiceErrors

  /** The error SQLite raises when an INSERT breaks `files.name UNIQUE`. */
  const FileNameTaken: SqlError := UniqueConstraintFailed("files.name")
  /** The error SQLite raises when an INSERT breaks `tags.name UNIQUE`. */
  const TagNameTaken: SqlError := UniqueConstraintFailed("tags.name")
  /** The error SQLite raises when an INSERT breaks `PRIMARY KEY (file_id, tag_id)`. */
  const FileTagTaken: SqlError := UniqueConstraintFailed("file_tags.file_id, file_tags.tag_id")

  /** A row of `tags`. */
  datatype Tag = Tag(id: int, name: string)

  /** A row of `files`. `tags` is not a column: the row reader fills it with
      its default, the empty list, and handlers may set it afterwards. */
  datatype File = File(id: int, name: string, tags: seq<Tag>)

  /** A row of `file_tags`; its primary key is the whole pair. */
  datatype FileTag = FileTag(fileId: int, tagId: int)

  /** A UNIQUE column: no two rows carry the same name. */
  ghost predicate UniqueNames(m: map<int, string>) {
    forall i, j :: i in m && j in m && m[i] == m[j] ==> i == j
  }

  /** Every id was handed out by the AUTOINCREMENT counter `counter`. */
  ghost predicate IdsAssigned(m: map<int, string>, counter: nat) {
    forall id :: id in m ==> 1 <= id <= counter
  }

  class Store {
    /** `files`: id to name. */
    var files: map<int, string>
    /** `tags`: id to name. */
    var tags: map<int, string>
    /** `file_tags`: a set, since the pair is the primary key. */
    var links: set<FileTag>
    /** The largest id ever assigned in `files` (SQLite's sqlite_sequence). */
    var fileSeq: nat
    /** The largest id ever assigned in `tags`. */
    var tagSeq: nat

    /** The schema's constraints: names are UNIQUE and NOT NULL (a string is
        never null here), ids come from the AUTOINCREMENT counters, and a
        `file_tags` pair occurs at most once (it is a set). There is no
        FOREIGN KEY, so links may name ids that are not rows. */
    ghost predicate Valid()
      reads this
    {
      && UniqueNames(files) && UniqueNames(tags)
      && IdsAssigned(files, fileSeq) && IdsAssigned(tags, tagSeq)
    }

    /** Every link names a file id the counter has already handed out. The
        schema does not enforce this; the handlers keep it, and it is what
        makes the links of a newly created file unable to clash. */
    ghost predicate LinksAssigned()
      reads this
    {
      forall l :: l in links ==> l.fileId <= fileSeq
    }

    /** A freshly created database: three empty tables. */
    constructor ()
      ensures Valid()
      ensures files == map[] && tags == map[] && links == {}
      ensures fileSeq == 0 && tagSeq == 0
    {
      files, tags, links := map[], map[], {};
      fileSeq, tagSeq := 0, 0;
    }
  }

  /** `SELECT ... WHERE name = ? LIMIT 1` over ids `lo..hi` in rowid order:
      the first id whose name is `name`, if any. */
  function FirstWithName(m: map<int, string>, name: string, lo: int, hi: int): (r: Option<int>)
    decreases hi - lo + 1
    ensures r.Some? ==> lo <= r.value <= hi && r.value in m && m[r.value] == name
    ensures r.None? ==> forall id :: lo <= id <= hi && id in m ==> m[id] != name
  {
    if lo > hi then None
    else if lo in m && m[lo] == name then Some(lo)
    else FirstWithName(m, name, lo + 1, hi)
  }

  /** Some row of the table carries `name`. */
  predicate HasName(m: map<int, string>, name: string) {
    exists id :: id in m && m[id] == name
  }

  /** When every id came from the counter, the scan over `1..counter` finds
      a name exactly when some row carries it. */
  lemma FirstWithNameFinds(m: map<int, string>, counter: nat, name: string)
    ensures IdsAssigned(m, counter) ==> (FirstWithName(m, name, 1, counter).Some? <==> HasName(m, name))
  {
    if IdsAssigned(m, counter) && HasName(m, name) {
      var id :| id in m && m[id] == name;
      assert 1 <= id <= counter;
    }
  }
}
