/** The change summary sent to the language model: a projection of the
    file records that the pull request's file listing returns. */
module Changes {
  import opened Wrappers

  /** One entry of the pull request's file listing, with the fields the
      action reads and some that it drops. */
  datatype ListedFile = ListedFile(
    sha: string,
    filename: string,
    status: string,
    additions: nat,
    deletions: nat,
    changes: nat,
    blobUrl: string,
    patch: Option<string>,        // absent for binary or very large files
    previousFilename: Option<string>)

  /** The action's `FileChange` record. */
  datatype FileChange = FileChange(
    filename: string,
    status: string,
    additions: nat,
    deletions: nat,
    patch: Option<string>)

  /** `c` carries exactly the five summarised fields of `f`. */
  predicate Copies(f: ListedFile, c: FileChange)
  {
    && c.filename == f.filename
    && c.status == f.status
    && c.additions == f.additions
    && c.deletions == f.deletions
    && c.patch == f.patch
  }

  /** `files.map(file => ({filename, status, additions, deletions, patch}))`. */
  function Summarize(files: seq<ListedFile>): (summary: seq<FileChange>)
    ensures |summary| == |files|
    ensures forall i :: 0 <= i < |files| ==> Copies(files[i], summary[i])
  {
    if files == [] then []
    else
      var f := files[0];
      [FileChange(f.filename, f.status, f.additions, f.deletions, f.patch)] + Summarize(files[1..])
  }

  /** The summary is built file by file in listing order: summarising two
      consecutive parts of a listing gives the two summaries in order. */
  lemma SummarizeAppend(front: seq<ListedFile>, back: seq<ListedFile>)
    ensures Summarize(front + back) == Summarize(front) + Summarize(back)
  {
  }

  /** `f` and `g` agree on the five summarised fields. */
  predicate SameFields(f: ListedFile, g: ListedFile)
  {
    && f.filename == g.filename
    && f.status == g.status
    && f.additions == g.additions
    && f.deletions == g.deletions
    && f.patch == g.patch
  }

  /** The summary is determined by the five copied fields: two listings that
      agree on them, entry by entry, have the same summary. */
  lemma SummaryIgnoresOtherFields(a: seq<ListedFile>, b: seq<ListedFile>)
    requires |a| == |b|
    requires forall i :: 0 <= i < |a| ==> SameFields(a[i], b[i])
    ensures Summarize(a) == Summarize(b)
  {
  }
}
