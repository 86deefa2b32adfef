/** Page-size defaults of src/config.rs. The source keeps them in global mutexes;
    here they are plain constants that callers pass as parameters. */
module Config {

  /** Default page size of the tag list. */
  const ListTagsPerPage: nat := 50

  /** Default page size of the file list. */
  const ListFilesPerPage: nat := 50

  /** Default page size of the list-files-by-tags query. */
  const ListFilesByTagPerPage: nat := 2
}
