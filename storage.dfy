/** The storage directory shared by both listeners: a flat set of files named
    by paste identifiers, and the I/O errors that reading one can raise. */
module Storage {
  import opened Common

  /** The `io::ErrorKind`s that matter to retrieval; only `NotFound` is singled out. */
  datatype ErrorKind = NotFound | PermissionDenied | IsADirectory | OtherKind

  /** An `io::Error`: its kind and the text its `Display` gives. */
  datatype IoError = IoError(kind: ErrorKind, description: string)

  /** What `fs::read` returns for a file. */
  type ReadResult = Result<seq<byte>, IoError>

  /** Length of the identifiers drawn for new pastes. */
  const ID_LENGTH: nat := 16

  /** The alphabet of `rand`'s `Alphanumeric` distribution. */
  predicate IsAlphanumeric(c: char) {
    ('0' <= c <= '9') || ('a' <= c <= 'z') || ('A' <= c <= 'Z')
  }

  /** A paste identifier: sixteen alphanumeric characters. */
  predicate IsIdentifier(id: string) {
    |id| == ID_LENGTH && forall i :: 0 <= i < |id| ==> IsAlphanumeric(id[i])
  }

  /** The text of the error a missing file produces. */
  const NOT_FOUND_TEXT: string := "No such file or directory (os error 2)"

  /** Reading `name` from a directory whose files are `files`, when the
      file system raises nothing beyond a missing file. */
  function ReadFrom(files: map<string, seq<byte>>, name: string): (r: ReadResult)
    ensures r.Ok? <==> name in files
    ensures r.Ok? ==> r.value == files[name]
    ensures r.Err? ==> r.error.kind == NotFound
  {
    if name in files then Ok(files[name]) else Err(IoError(NotFound, NOT_FOUND_TEXT))
  }

  /** The storage directory: a map from file name to file contents. */
  class Directory {
    var files: map<string, seq<byte>>

    constructor (files: map<string, seq<byte>>)
      ensures this.files == files
    {
      this.files := files;
    }

    /** `tokio::fs::write`: creates or silently overwrites `name`. `fault` is
        the error the file system reports for this write, if any. */
    method Write(name: string, contents: seq<byte>, fault: Option<string>) returns (r: Outcome<string>)
      modifies this
      ensures r.Pass? <==> fault.None?
      ensures r.Fail? ==> r.error == fault.value && files == old(files)
      ensures r.Pass? ==> files == old(files)[name := contents]
    {
      if fault.Some? {
        r := Fail(fault.value);
      } else {
        files := files[name := contents];
        r := Pass;
      }
    }
  }
}
