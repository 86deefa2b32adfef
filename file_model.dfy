/** The file model of src/models/file.rs: statements over the `files` table,
    the links of a file, and the paged query of files by tag ids. */
module FileModel {
  import opened Wrappers
  import opened Seqs
  import opened ServiceErrors
  import opened Database
  import Sql
  import Config

  /** The error of `extract_from_name` for an unknown name. */
  const FileNotFound: ServiceError := NotFound("FILE_NOT_FOUND", "Specified file cannot be found")

  /** The links a file gets from a list of tag ids. */
  function LinksFor(fileId: int, tagIds: seq<int>): set<FileTag> {
    set t | t in tagIds :: FileTag(fileId, t)
  }

  /** Every link of `fileId` to `tagIds` can be inserted one after the other
      without breaking the primary key of `file_tags`. */
  ghost predicate Insertable(links: set<FileTag>, fileId: int, tagIds: seq<int>) {
    Distinct(tagIds) && forall t :: t in tagIds ==> FileTag(fileId, t) !in links
  }

  /** The `insert!` macro, INSERT INTO files (name) VALUES (?), followed by
      `last_insert_rowid()`: the new id is one past every id ever assigned. */
  method Insert(db: Store, name: string) returns (r: Result<int, SqlError>)
    requires db.Valid()
    modifies db
    ensures db.Valid()
    ensures db.tags == old(db.tags) && db.tagSeq == old(db.tagSeq) && db.links == old(db.links)
    ensures old(HasName(db.files, name)) ==> r == Err(FileNameTaken) && unchanged(db)
    ensures !old(HasName(db.files, name)) ==>
      && r == Ok(old(db.fileSeq) + 1)
      && db.fileSeq == old(db.fileSeq) + 1
      && db.files == old(db.files)[db.fileSeq := name]
  {
    if HasName(db.files, name) {
      r := Err(FileNameTaken);
      return;
    }
    db.fileSeq := db.fileSeq + 1;
    db.files := db.files[db.fileSeq := name];
    r := Ok(db.fileSeq);
  }

  /** `File::create_with_tags`. The file row is inserted (and committed) before
      the transaction for the links begins, so when a link insert breaks the
      primary key the transaction rolls back the links only and the file row
      stays: the operation is not all-or-nothing. The returned row is the one
      read back after the insert, whose `tags` are the default, empty. */
  method CreateWithTags(db: Store, name: string, tagIds: seq<int>) returns (r: Result<File, SqlError>)
    requires db.Valid()
    modifies db
    ensures db.Valid()
    ensures db.tags == old(db.tags) && db.tagSeq == old(db.tagSeq)
    ensures old(HasName(db.files, name)) ==> r == Err(FileNameTaken) && unchanged(db)
    ensures !old(HasName(db.files, name)) ==>
      var id := old(db.fileSeq) + 1;
      && db.fileSeq == id
      && db.files == old(db.files)[id := name]
      && (r.Ok? <==> Insertable(old(db.links), id, tagIds))
      && (r.Ok? ==> r.value == File(id, name, []) && db.links == old(db.links) + LinksFor(id, tagIds))
      && (r.Err? ==> r.error == FileTagTaken && db.links == old(db.links))
  {
    var ins := Insert(db, name);
    if ins.Err? {
      return Err(ins.error);
    }
    var inst := File(ins.value, db.files[ins.value], []);
    // the transaction starts here: a failing statement drops it, which rolls back
    var before := db.links;
    var i := 0;
    while i < |tagIds|
      invariant 0 <= i <= |tagIds|
      invariant db.files == old(db.files)[inst.id := name] && db.fileSeq == inst.id
      invariant db.tags == old(db.tags) && db.tagSeq == old(db.tagSeq)
      invariant db.links == before + LinksFor(inst.id, tagIds[..i])
      invariant Insertable(before, inst.id, tagIds[..i])
    {
      var link := FileTag(inst.id, tagIds[i]);
      if link in db.links {
        if FileTag(inst.id, tagIds[i]) !in before {
          var j :| 0 <= j < i && tagIds[j] == tagIds[i];
          assert !Distinct(tagIds);
        }
        db.links := before;
        return Err(FileTagTaken);
      }
      db.links := db.links + {link};
      assert tagIds[..i + 1] == tagIds[..i] + [tagIds[i]];
      i := i + 1;
    }
    assert tagIds[..i] == tagIds;
    r := Ok(inst);
  }

  /** `File::create`: insert a file row and read it back, with no tags. */
  method Create(db: Store, name: string) returns (r: Result<File, SqlError>)
    requires db.Valid()
    modifies db
    ensures db.Valid()
    ensures db.tags == old(db.tags) && db.tagSeq == old(db.tagSeq) && db.links == old(db.links)
    ensures old(HasName(db.files, name)) ==> r == Err(FileNameTaken) && unchanged(db)
    ensures !old(HasName(db.files, name)) ==>
      && r == Ok(File(old(db.fileSeq) + 1, name, []))
      && db.fileSeq == old(db.fileSeq) + 1
      && db.files == old(db.files)[db.fileSeq := name]
    ensures r.Ok? ==> forall id :: id in old(db.files) ==> id < r.value.id
  {
    var ins := Insert(db, name);
    if ins.Err? {
      return Err(ins.error);
    }
    r := Ok(File(ins.value, db.files[ins.value], []));
  }

  /** `File::delete`: DELETE FROM files WHERE id = self.id. Links are not touched. */
  method Delete(db: Store, file: File)
    requires db.Valid()
    modifies db
    ensures db.Valid()
    ensures db.files == old(db.files) - {file.id}
    ensures db.tags == old(db.tags) && db.links == old(db.links)
    ensures db.fileSeq == old(db.fileSeq) && db.tagSeq == old(db.tagSeq)
  {
    db.files := db.files - {file.id};
  }

  /** `unlink_all_tags`: DELETE FROM file_tags WHERE file_id = self.id. */
  method UnlinkAllTags(db: Store, file: File)
    requires db.Valid()
    modifies db
    ensures db.Valid()
    ensures db.links == set l | l in old(db.links) && l.fileId != file.id
    ensures forall t :: FileTag(file.id, t) !in db.links
    ensures db.files == old(db.files) && db.tags == old(db.tags)
    ensures db.fileSeq == old(db.fileSeq) && db.tagSeq == old(db.tagSeq)
  {
    db.links := set l | l in db.links && l.fileId != file.id;
  }

  /** `File::find_by_name`: SELECT * FROM files WHERE name = ? LIMIT 1. */
  function FindByName(db: Store, name: string): (r: Option<File>)
    reads db
    ensures r.Some? ==> r.value.name == name && r.value.tags == [] && r.value.id in db.files && db.files[r.value.id] == name
    ensures db.Valid() ==> (r.Some? <==> HasName(db.files, name))
    ensures db.Valid() && r.Some? ==> forall id :: id in db.files && db.files[id] == name ==> id == r.value.id
  {
    FirstWithNameFinds(db.files, db.fileSeq, name);
    match FirstWithName(db.files, name, 1, db.fileSeq)
    case None => None
    case Some(id) => Some(File(id, name, []))
  }

  /** `File::name_exists`: SELECT 1 FROM files WHERE name = ? LIMIT 1. */
  predicate NameExists(db: Store, name: string)
    reads db
    ensures db.Valid() ==> (NameExists(db, name) <==> FindByName(db, name).Some?)
  {
    HasName(db.files, name)
  }

  /** `File::extract_from_name`: the file called `name`, or not_found FILE_NOT_FOUND. */
  function ExtractFromName(db: Store, name: string): (r: Result<File, ServiceError>)
    reads db
    ensures r.Err? <==> FindByName(db, name).None?
    ensures r.Err? ==> r.error == FileNotFound
    ensures r.Ok? ==> r.value.name == name && r.value.id in db.files && db.files[r.value.id] == name
    ensures db.Valid() ==> (r.Ok? <==> HasName(db.files, name))
  {
    match FindByName(db, name)
    case None => Err(FileNotFound)
    case Some(file) => Ok(file)
  }

  /** `File::extract_id_exists` is called by a handler but not defined in the
      modelled files; it is taken to fail, as FILE_NOT_FOUND, unless a file
      row has that id. */
  function ExtractIdExists(db: Store, id: int): (r: Result<(), ServiceError>)
    reads db
    ensures r.Ok? <==> id in db.files
    ensures r.Err? ==> IsClientError(r.error)
  {
    if id in db.files then Ok(()) else Err(FileNotFound)
  }

  // ---- the paged query by tag ids ----

  /** The queried tag ids that link file `fileId`: the join yields one row per
      such id, since the query has no DISTINCT. */
  function MatchingTags(links: set<FileTag>, fileId: int, tags: set<int>): set<int> {
    set t | t in tags && FileTag(fileId, t) in links
  }

  /** `k` copies of `x`. */
  function Repeat<T>(x: T, k: nat): (r: seq<T>)
    ensures |r| == k && forall i :: 0 <= i < k ==> r[i] == x
  {
    seq(k, _ => x)
  }

  /** SELECT files.* FROM file_tags INNER JOIN files ON id = file_id
      WHERE file_tags.tag_id IN (tags) ORDER BY id DESC, over the ids
      `hi` down to 1. */
  function JoinRows(files: map<int, string>, links: set<FileTag>, tags: set<int>, hi: int): (r: seq<File>)
    decreases hi
    ensures forall i :: 0 <= i < |r| ==>
      && 1 <= r[i].id <= hi && r[i].id in files
      && r[i].name == files[r[i].id] && r[i].tags == []
      && MatchingTags(links, r[i].id, tags) != {}
    ensures forall i, j :: 0 <= i < j < |r| ==> r[i].id >= r[j].id
  {
    if hi < 1 then [] else JoinRowsOf(files, links, tags, hi) + JoinRows(files, links, tags, hi - 1)
  }

  /** The join rows of file `id`: one per queried tag id linking it. */
  function JoinRowsOf(files: map<int, string>, links: set<FileTag>, tags: set<int>, id: int): (r: seq<File>)
    ensures forall i :: 0 <= i < |r| ==>
      id in files && r[i] == File(id, files[id], []) && MatchingTags(links, id, tags) != {}
  {
    if id in files then Repeat(File(id, files[id], []), |MatchingTags(links, id, tags)|) else []
  }

  /** How many rows of `rows` are for file `id`. */
  function Occurrences(rows: seq<File>, id: int): nat {
    if rows == [] then 0 else (if rows[0].id == id then 1 else 0) + Occurrences(rows[1..], id)
  }

  lemma {:induction false} OccurrencesAppend(a: seq<File>, b: seq<File>, id: int)
    ensures Occurrences(a + b, id) == Occurrences(a, id) + Occurrences(b, id)
  {
    if a != [] {
      assert (a + b)[0] == a[0];
      assert (a + b)[1..] == a[1..] + b;
      OccurrencesAppend(a[1..], b, id);
    } else {
      assert a + b == b;
    }
  }

  lemma {:induction false} OccurrencesRepeat(x: File, k: nat, id: int)
    ensures Occurrences(Repeat(x, k), id) == if x.id == id then k else 0
  {
    if k > 0 {
      assert Repeat(x, k)[1..] == Repeat(x, k - 1);
      OccurrencesRepeat(x, k - 1, id);
    }
  }

  /** A file matching `k` of the queried tag ids occurs exactly `k` times in the
      join, and a file that is not a row does not occur. */
  lemma {:induction false} JoinRowCount(files: map<int, string>, links: set<FileTag>, tags: set<int>, hi: int, f: int)
    ensures Occurrences(JoinRows(files, links, tags, hi), f) ==
      if 1 <= f <= hi && f in files then |MatchingTags(links, f, tags)| else 0
    decreases hi
  {
    if hi >= 1 {
      var here := JoinRowsOf(files, links, tags, hi);
      var rest := JoinRows(files, links, tags, hi - 1);
      OccurrencesAppend(here, rest, f);
      JoinRowsOfCount(files, links, tags, hi, f);
      JoinRowCount(files, links, tags, hi - 1, f);
    }
  }

  lemma JoinRowsOfCount(files: map<int, string>, links: set<FileTag>, tags: set<int>, id: int, f: int)
    ensures Occurrences(JoinRowsOf(files, links, tags, id), f) ==
      if id == f && f in files then |MatchingTags(links, f, tags)| else 0
  {
    if id in files {
      OccurrencesRepeat(File(id, files[id], []), |MatchingTags(links, id, tags)|, f);
    }
  }

  function Min(a: int, b: int): int { if a <= b then a else b }

  /** `x as i32` for a `u32` value: two's-complement reinterpretation. */
  function ToI32(x: int): (r: int)
    requires 0 <= x < 0x1_0000_0000
    ensures -0x8000_0000 <= r < 0x8000_0000
    ensures r == x || r == x - 0x1_0000_0000
  {
    if x < 0x8000_0000 then x else x - 0x1_0000_0000
  }

  /** The LIMIT parameter: `amount as i32`. */
  function LimitParam(amount: nat): (r: int)
    requires amount < 0x1_0000_0000
    ensures amount < 0x8000_0000 ==> r == amount
    ensures amount >= 0x8000_0000 ==> r < 0
  {
    ToI32(amount)
  }

  /** The OFFSET parameter: `(amount * page) as i32`, the product taken in
      `u32`, which wraps around in a release build. */
  function OffsetParam(amount: nat, page: nat): (r: int)
    requires amount < 0x1_0000_0000 && page < 0x1_0000_0000
    ensures -0x8000_0000 <= r < 0x8000_0000
    ensures (amount * page - r) % 0x1_0000_0000 == 0
  {
    WrapCongruent(amount * page);
    ToI32((amount * page) % 0x1_0000_0000)
  }

  /** Reducing modulo 2^32 and reinterpreting as i32 changes a number by a
      multiple of 2^32. */
  lemma WrapCongruent(x: nat)
    ensures (x - ToI32(x % 0x1_0000_0000)) % 0x1_0000_0000 == 0
  {
    var q := x / 0x1_0000_0000;
    var r := x % 0x1_0000_0000;
    assert x == q * 0x1_0000_0000 + r;
    if r < 0x8000_0000 {
      assert x - ToI32(r) == q * 0x1_0000_0000;
    } else {
      assert x - ToI32(r) == (q + 1) * 0x1_0000_0000;
    }
  }

  /** LIMIT `limit` OFFSET `offset` as SQLite applies them: a negative limit
      means no limit and a negative offset counts as zero. */
  function Window<T>(rows: seq<T>, limit: int, offset: int): (r: seq<T>)
    ensures var start := if offset < 0 then 0 else Min(offset, |rows|);
      r == rows[start..if limit < 0 then |rows| else Min(start + limit, |rows|)]
  {
    var rest := rows[if offset < 0 then 0 else Min(offset, |rows|)..];
    if limit < 0 || limit >= |rest| then rest else rest[..limit]
  }

  /** The rows of `find_specific_amount_by_tags_ids_on_page`; `tag_id IN (...)`
      is membership, so a repeated id counts once. */
  function Page(db: Store, tags: seq<int>, amount: nat, page: nat): seq<File>
    reads db
    requires db.Valid()
    requires amount < 0x1_0000_0000 && page < 0x1_0000_0000
  {
    Window(JoinRows(db.files, db.links, Elements(tags), db.fileSeq), LimitParam(amount), OffsetParam(amount, page))
  }

  /** A row of the paged query: the file row of a file linked to one of the
      queried tag ids. */
  ghost predicate Linked(db: Store, tags: seq<int>, f: File)
    reads db
  {
    && f.id in db.files && f.name == db.files[f.id] && f.tags == []
    && exists t :: t in tags && FileTag(f.id, t) in db.links
  }

  /** What a page of the query promises: at most `amount` rows when `amount`
      fits in an i32, every row linked to a queried tag id, ids descending. */
  ghost predicate PageShape(db: Store, tags: seq<int>, amount: nat, rows: seq<File>)
    reads db
  {
    && (amount < 0x8000_0000 ==> |rows| <= amount)
    && (forall i :: 0 <= i < |rows| ==> Linked(db, tags, rows[i]))
    && (forall i, j :: 0 <= i < j < |rows| ==> rows[i].id >= rows[j].id)
  }

  /** `find_specific_amount_by_tags_ids_on_page`: builds one placeholder per tag
      id, binds the ids, then LIMIT and OFFSET, and runs the join. */
  method FindSpecificAmountByTagsIdsOnPage(db: Store, tags: seq<int>, amount: nat, page: nat) returns (rows: seq<File>)
    requires db.Valid()
    requires amount < 0x1_0000_0000 && page < 0x1_0000_0000
    ensures rows == Page(db, tags, amount, page)
    ensures PageShape(db, tags, amount, rows)
  {
    var qs := Sql.Placeholders(|tags|);
    // one `?` per tag id, bound before the LIMIT and OFFSET values
    Sql.PlaceholderCounts(qs, |tags|);
    rows := Page(db, tags, amount, page);
    PageRows(db, tags, amount, page);
  }

  /** Every row of the join is linked to one of the queried tag ids. */
  lemma JoinRowsLinked(db: Store, tags: seq<int>)
    ensures var join := JoinRows(db.files, db.links, Elements(tags), db.fileSeq);
      forall i :: 0 <= i < |join| ==> Linked(db, tags, join[i])
  {
    var join := JoinRows(db.files, db.links, Elements(tags), db.fileSeq);
    forall i | 0 <= i < |join| ensures Linked(db, tags, join[i]) {
      var t :| t in MatchingTags(db.links, join[i].id, Elements(tags));
      assert t in tags && FileTag(join[i].id, t) in db.links;
    }
  }

  /** Every row of a page is a file row linked to one of the queried tag ids,
      the rows are ordered by id descending, and a page whose size fits in an
      i32 holds at most that many rows. */
  lemma PageRows(db: Store, tags: seq<int>, amount: nat, page: nat)
    requires db.Valid()
    requires amount < 0x1_0000_0000 && page < 0x1_0000_0000
    ensures PageShape(db, tags, amount, Page(db, tags, amount, page))
  {
    var join := JoinRows(db.files, db.links, Elements(tags), db.fileSeq);
    var offset := OffsetParam(amount, page);
    var start := if offset < 0 then 0 else Min(offset, |join|);
    var limit := LimitParam(amount);
    var stop := if limit < 0 then |join| else Min(start + limit, |join|);
    assert Page(db, tags, amount, page) == join[start..stop];
    JoinRowsLinked(db, tags);
    SliceShape(db, tags, join, start, stop);
  }

  /** A slice of rows that are linked and ordered by id descending is too. */
  lemma SliceShape(db: Store, tags: seq<int>, join: seq<File>, start: nat, stop: nat)
    requires start <= stop <= |join|
    requires forall i :: 0 <= i < |join| ==> Linked(db, tags, join[i])
    requires forall i, j :: 0 <= i < j < |join| ==> join[i].id >= join[j].id
    ensures forall i :: 0 <= i < stop - start ==> Linked(db, tags, join[start..stop][i])
    ensures forall i, j :: 0 <= i < j < stop - start ==> join[start..stop][i].id >= join[start..stop][j].id
  {
    var rows := join[start..stop];
    forall i | 0 <= i < |rows| ensures Linked(db, tags, rows[i]) {
      assert rows[i] == join[start + i];
    }
    forall i, j | 0 <= i < j < |rows| ensures rows[i].id >= rows[j].id {
      assert rows[i] == join[start + i] && rows[j] == join[start + j];
    }
  }

  /** When `amount * page` fits in an i32, the offset is exactly `amount * page`. */
  lemma OffsetExact(amount: nat, page: nat)
    requires amount < 0x1_0000_0000 && page < 0x1_0000_0000
    requires amount * page < 0x8000_0000
    ensures OffsetParam(amount, page) == amount * page
  {
    ModSmall(amount * page, 0x1_0000_0000);
  }

  lemma ModSmall(x: int, m: int)
    requires 0 <= x < m
    ensures x % m == x
  {
  }

  /** With the default page size of 2 and a `u16` page number, the offset is at
      most 131070: it neither wraps in u32 nor overflows i32. */
  lemma DefaultOffsetFits(page: nat)
    requires page < 0x1_0000
    ensures OffsetParam(Config.ListFilesByTagPerPage, page) == 2 * page <= 131070
    ensures LimitParam(Config.ListFilesByTagPerPage) == 2
  {
  }

  /** Each default page size, used as `amount` with a u16 page number, gives
      a LIMIT equal to the size and an OFFSET of exactly `size * page`: no
      default is large enough to wrap. */
  lemma DefaultSizesExact(page: nat)
    requires page < 0x1_0000
    ensures LimitParam(Config.ListTagsPerPage) == 50 && OffsetParam(Config.ListTagsPerPage, page) == 50 * page
    ensures LimitParam(Config.ListFilesPerPage) == 50 && OffsetParam(Config.ListFilesPerPage, page) == 50 * page
    ensures LimitParam(Config.ListFilesByTagPerPage) == 2 && OffsetParam(Config.ListFilesByTagPerPage, page) == 2 * page
  {
  }

  /** With a large configured page size the product wraps: page 65535 of
      pages of 65536 rows gets a negative offset, which SQLite reads as 0. */
  lemma LargePageSizeWraps()
    ensures OffsetParam(0x1_0000, 0xFFFF) == -0x1_0000
  {
  }

  /** The first `k` pages of `n` rows each, laid end to end. */
  function FirstPages<T>(rows: seq<T>, n: nat, k: nat): seq<T> {
    if k == 0 then [] else FirstPages(rows, n, k - 1) + Window(rows, n, n * (k - 1))
  }

  lemma MulStep(n: nat, k: nat)
    requires k > 0
    ensures n * k == n * (k - 1) + n
  {
  }

  /** Reading pages 0..k-1 in order reproduces the first `n * k` rows, with no
      row lost or repeated. */
  lemma {:induction false} FirstPagesArePrefix<T>(rows: seq<T>, n: nat, k: nat)
    ensures FirstPages(rows, n, k) == rows[..Min(n * k, |rows|)]
  {
    if k > 0 {
      var off := n * (k - 1);
      assert FirstPages(rows, n, k) == FirstPages(rows, n, k - 1) + Window(rows, n, off);
      FirstPagesArePrefix(rows, n, k - 1);
      PageAfterPrefix(rows, n, off);
      MulStep(n, k);
    }
  }

  /** The page of `n` rows at offset `off` extends the first `off` rows to the
      first `off + n`. */
  lemma PageAfterPrefix<T>(rows: seq<T>, n: nat, off: nat)
    ensures rows[..Min(off, |rows|)] + Window(rows, n, off) == rows[..Min(off + n, |rows|)]
  {
    var a := Min(off, |rows|);
    var b := Min(off + n, |rows|);
    assert Window(rows, n, off) == rows[a..b];
    assert rows[..a] + rows[a..b] == rows[..b];
  }

  /** With the default page size, page `p` of the query is the slice of the
      join rows starting at `2 * p`, so pages 0..k-1 read in order are its
      first `2 * k` rows. */
  lemma DefaultPagesArePrefix(db: Store, tags: seq<int>, k: nat)
    requires db.Valid()
    requires k <= 0x1_0000
    ensures var join := JoinRows(db.files, db.links, Elements(tags), db.fileSeq);
      && (forall p :: 0 <= p < k ==> Page(db, tags, Config.ListFilesByTagPerPage, p) == Window(join, 2, 2 * p))
      && FirstPages(join, 2, k) == join[..Min(2 * k, |join|)]
  {
    var join := JoinRows(db.files, db.links, Elements(tags), db.fileSeq);
    forall p | 0 <= p < k
      ensures Page(db, tags, Config.ListFilesByTagPerPage, p) == Window(join, 2, 2 * p)
    {
      DefaultOffsetFits(p);
    }
    FirstPagesArePrefix(join, 2, k);
  }
}
