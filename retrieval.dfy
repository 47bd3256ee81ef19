/** The HTTP listener's paste retrieval: the path segment is trimmed of
    surrounding whitespace and stripped of every '/', the file of that name
    is read from the storage directory, and the outcome of the read becomes
    a status, a plain-text header and a body. */
module Retrieval {
  import opened Common
  import opened Storage

  // File-name sanitisation.

  /** `char::is_whitespace`: the characters with the Unicode White_Space
      property. */
  predicate IsWhitespace(c: char) {
    || ('\t' <= c <= '\r')
    || c == ' '
    || c == '\U{85}'
    || c == '\U{A0}'
    || c == '\U{1680}'
    || ('\U{2000}' <= c <= '\U{200A}')
    || c == '\U{2028}'
    || c == '\U{2029}'
    || c == '\U{202F}'
    || c == '\U{205F}'
    || c == '\U{3000}'
  }

  predicate AllWhitespace(s: string) {
    forall i :: 0 <= i < |s| ==> IsWhitespace(s[i])
  }

  /** `str::trim_start`: drops the leading whitespace, and nothing else. */
  function TrimStart(s: string): (r: string)
    ensures |r| <= |s| && r == s[|s| - |r|..]
    ensures AllWhitespace(s[..|s| - |r|])
    ensures r == [] || !IsWhitespace(r[0])
  {
    if s != [] && IsWhitespace(s[0]) then
      var r := TrimStart(s[1..]);
      var n := |s| - |r|;
      assert AllWhitespace(s[..n]) by {
        forall i | 0 <= i < n ensures IsWhitespace(s[..n][i]) {
          if i > 0 {
            assert s[..n][i] == s[1..][..n - 1][i - 1];
          }
        }
      }
      r
    else
      s
  }

  /** `str::trim_end`: drops the trailing whitespace, and nothing else. */
  function TrimEnd(s: string): (r: string)
    ensures |r| <= |s| && r == s[..|r|]
    ensures AllWhitespace(s[|r|..])
    ensures r == [] || !IsWhitespace(r[|r| - 1])
  {
    if s != [] && IsWhitespace(s[|s| - 1]) then
      var r := TrimEnd(s[..|s| - 1]);
      assert AllWhitespace(s[|r|..]) by {
        forall i | 0 <= i < |s| - |r| ensures IsWhitespace(s[|r|..][i]) {
          if i < |s| - 1 - |r| {
            assert s[|r|..][i] == s[..|s| - 1][|r|..][i];
          }
        }
      }
      r
    else
      s
  }

  /** `str::trim`: drops whitespace at both ends. */
  function Trim(s: string): (r: string)
    ensures |r| <= |s|
    ensures r == [] || (!IsWhitespace(r[0]) && !IsWhitespace(r[|r| - 1]))
  {
    TrimEnd(TrimStart(s))
  }

  /** `str::replace("/", "")`: every '/' deleted, everything else kept in order. */
  function RemoveSlashes(s: string): (r: string)
    ensures forall i :: 0 <= i < |r| ==> r[i] != '/'
    ensures |r| <= |s|
  {
    if s == [] then []
    else if s[0] == '/' then RemoveSlashes(s[1..])
    else [s[0]] + RemoveSlashes(s[1..])
  }

  /** The name `get_paste` joins onto the storage directory. */
  function SanitizeName(hash: string): (r: string)
    ensures forall i :: 0 <= i < |r| ==> r[i] != '/'
    ensures |r| <= |hash|
  {
    RemoveSlashes(Trim(hash))
  }

  /** Leading whitespace in front of a string that does not start with
      whitespace is exactly what `TrimStart` drops. */
  lemma {:induction false} TrimStartDrops(lead: string, rest: string)
    requires AllWhitespace(lead)
    requires rest == [] || !IsWhitespace(rest[0])
    ensures TrimStart(lead + rest) == rest
    decreases |lead|
  {
    if lead != [] {
      assert (lead + rest)[1..] == lead[1..] + rest;
      assert AllWhitespace(lead[1..]) by {
        forall i | 0 <= i < |lead[1..]| ensures IsWhitespace(lead[1..][i]) {
          assert lead[1..][i] == lead[i + 1];
        }
      }
      TrimStartDrops(lead[1..], rest);
    } else {
      assert lead + rest == rest;
    }
  }

  /** Trailing whitespace after a string that does not end in whitespace is
      exactly what `TrimEnd` drops. */
  lemma {:induction false} TrimEndDrops(rest: string, trail: string)
    requires AllWhitespace(trail)
    requires rest == [] || !IsWhitespace(rest[|rest| - 1])
    ensures TrimEnd(rest + trail) == rest
    decreases |trail|
  {
    if trail != [] {
      var init := trail[..|trail| - 1];
      assert (rest + trail)[..|rest + trail| - 1] == rest + init;
      assert AllWhitespace(init) by {
        forall i | 0 <= i < |init| ensures IsWhitespace(init[i]) {
          assert init[i] == trail[i];
        }
      }
      TrimEndDrops(rest, init);
    } else {
      assert rest + trail == rest;
    }
  }

  /** `Trim` agrees with its definition by cases: for any string written as
      whitespace, a core that neither starts nor ends with whitespace, and
      whitespace, it gives the core. */
  lemma TrimIsCore(lead: string, core: string, trail: string)
    requires AllWhitespace(lead) && AllWhitespace(trail)
    requires core == [] || (!IsWhitespace(core[0]) && !IsWhitespace(core[|core| - 1]))
    ensures Trim(lead + core + trail) == core
  {
    if core == [] {
      assert lead + core + trail == (lead + trail) + [];
      assert AllWhitespace(lead + trail) by {
        forall i | 0 <= i < |lead + trail| ensures IsWhitespace((lead + trail)[i]) {
          if i >= |lead| {
            assert (lead + trail)[i] == trail[i - |lead|];
          }
        }
      }
      TrimStartDrops(lead + trail, []);
    } else {
      assert lead + core + trail == lead + (core + trail);
      TrimStartDrops(lead, core + trail);
      TrimEndDrops(core, trail);
    }
  }

  /** Deleting slashes from a concatenation deletes them from each part. */
  lemma {:induction false} RemoveSlashesAppend(a: string, b: string)
    ensures RemoveSlashes(a + b) == RemoveSlashes(a) + RemoveSlashes(b)
  {
    if a != [] {
      assert (a + b)[1..] == a[1..] + b;
      RemoveSlashesAppend(a[1..], b);
    } else {
      assert a + b == b;
    }
  }

  /** One character is kept unless it is '/'. */
  lemma RemoveSlashesOfChar(c: char)
    ensures RemoveSlashes([c]) == if c == '/' then [] else [c]
  {
    assert [c][1..] == [];
  }

  /** A string without '/' is left alone. */
  lemma {:induction false} RemoveSlashesKeepsPlain(s: string)
    requires '/' !in s
    ensures RemoveSlashes(s) == s
  {
    if s != [] {
      assert s[0] != '/';
      assert forall i :: 0 <= i < |s[1..]| ==> s[1..][i] == s[i + 1];
      RemoveSlashesKeepsPlain(s[1..]);
      assert s == [s[0]] + s[1..];
    }
  }

  /** Deleting the slash after a slash-free part keeps that part and goes on
      after it. */
  lemma RemoveSlashesJoin(a: string, b: string)
    requires '/' !in a
    ensures RemoveSlashes(a + "/" + b) == a + RemoveSlashes(b)
  {
    assert a + "/" + b == a + ("/" + b);
    RemoveSlashesAppend(a, "/" + b);
    RemoveSlashesKeepsPlain(a);
    assert ("/" + b)[1..] == b;
  }

  /** Deleting slashes twice is deleting them once. */
  lemma RemoveSlashesIdempotent(s: string)
    ensures RemoveSlashes(RemoveSlashes(s)) == RemoveSlashes(s)
  {
    RemoveSlashesKeepsPlain(RemoveSlashes(s));
  }

  /** A name with no whitespace at either end and no '/' reaches the file
      system unchanged; in particular every identifier `create_paste` draws. */
  lemma SanitizeKeepsPlainNames(name: string)
    requires '/' !in name
    requires name == [] || (!IsWhitespace(name[0]) && !IsWhitespace(name[|name| - 1]))
    ensures SanitizeName(name) == name
  {
    SanitizeKeepsPlainEnds(name);
    RemoveSlashesKeepsPlain(name);
  }

  lemma SanitizeKeepsIdentifiers(id: string)
    requires IsIdentifier(id)
    ensures SanitizeName(id) == id
  {
    assert forall i :: 0 <= i < |id| ==> id[i] != '/';
    assert IsAlphanumeric(id[0]) && IsAlphanumeric(id[|id| - 1]);
    SanitizeKeepsPlainNames(id);
  }

  /** Each '/' of a request path is deleted and the segments run together:
      a leading "../" becomes ".." glued to the rest of the name, so no
      segment of a traversal path survives as a path step. */
  lemma SanitizeJoinsSegments(first: string, rest: string)
    requires '/' !in first
    requires first != [] && !IsWhitespace(first[0])
    requires rest != [] && !IsWhitespace(rest[|rest| - 1])
    ensures SanitizeName(first + "/" + rest) == first + RemoveSlashes(rest)
  {
    var path := first + "/" + rest;
    assert path[0] == first[0] && path[|path| - 1] == rest[|rest| - 1];
    SanitizeKeepsPlainEnds(path);
    RemoveSlashesJoin(first, rest);
  }

  /** Neither ".." nor "." contains a '/', so both pass through and name the
      parent of the storage directory and the directory itself. */
  lemma SanitizeKeepsDotNames()
    ensures SanitizeName("..") == ".."
    ensures SanitizeName(".") == "."
  {
    SanitizeKeepsPlainNames("..");
    SanitizeKeepsPlainNames(".");
  }

  /** A name with no whitespace at either end only loses its slashes. */
  lemma SanitizeKeepsPlainEnds(name: string)
    requires name == [] || (!IsWhitespace(name[0]) && !IsWhitespace(name[|name| - 1]))
    ensures SanitizeName(name) == RemoveSlashes(name)
  {
    assert [] + name + [] == name;
    TrimIsCore([], name, []);
  }

  // Response mapping.

  datatype StatusCode = OK | BadRequest | InternalServerError {
    function Code(): nat {
      match this
      case OK => 200
      case BadRequest => 400
      case InternalServerError => 500
    }
  }

  /** What `get_paste` returns: a status, the header map and the body bytes. */
  datatype Response = Response(status: StatusCode, headers: map<string, string>, body: seq<byte>)

  /** The single header every response carries. */
  const PLAIN_TEXT: map<string, string> := map["Content-Type" := "text/plain"]

  const NOT_FOUND_MESSAGE: string := "File does not exist."

  /** The bytes of `NOT_FOUND_MESSAGE`, one per character. */
  const NOT_FOUND_BODY: seq<byte> :=
    [70, 105, 108, 101, 32, 100, 111, 101, 115, 32, 110, 111, 116, 32, 101, 120, 105, 115, 116, 46]

  /** The response for the outcome of reading the paste's file. */
  function Respond(read: ReadResult): (r: Response)
    ensures r.headers == PLAIN_TEXT
  {
    match read
    case Ok(contents) => Response(OK, PLAIN_TEXT, contents)
    case Err(e) =>
      if e.kind == NotFound then Response(BadRequest, PLAIN_TEXT, NOT_FOUND_BODY)
      else Response(InternalServerError, PLAIN_TEXT, Utf8(e.description))
  }

  /** Each outcome has its own status and nothing else shares it: 200 exactly
      for a successful read, with the file's bytes as the body; 400 exactly for
      a missing file, with the fixed message; 500 exactly for every other
      error, with the error's text. */
  lemma RespondIsFaithful(read: ReadResult)
    ensures var r := Respond(read);
      && (r.status == OK <==> read.Ok?)
      && (r.status == OK ==> r.body == read.value)
      && (r.status == BadRequest <==> read.Err? && read.error.kind == NotFound)
      && (r.status == BadRequest ==> r.body == NOT_FOUND_BODY)
      && (r.status == InternalServerError <==> read.Err? && read.error.kind != NotFound)
      && (r.status == InternalServerError ==> r.body == Utf8(read.error.description))
  {
  }

  /** The fixed body is `"File does not exist.".as_bytes()`. */
  lemma NotFoundBodyIsMessage()
    ensures NOT_FOUND_BODY == Utf8(NOT_FOUND_MESSAGE)
  {
    AsciiIsBytes(NOT_FOUND_MESSAGE, NOT_FOUND_BODY);
  }

  /** `get_paste`, with `read` standing for `fs::read` on a name inside the
      storage directory. */
  function GetPaste(hash: string, read: string -> ReadResult): (r: Response)
    ensures r.headers == PLAIN_TEXT
  {
    Respond(read(SanitizeName(hash)))
  }

  /** A stored paste is served back byte for byte under its identifier. */
  lemma StoredPasteIsServed(files: map<string, seq<byte>>, id: string, contents: seq<byte>)
    requires IsIdentifier(id)
    ensures GetPaste(id, name => ReadFrom(files[id := contents], name)) == Response(OK, PLAIN_TEXT, contents)
  {
    SanitizeKeepsIdentifiers(id);
  }

  /** An identifier with no paste is a bad request, not a server error. */
  lemma UnknownIdentifierIsBadRequest(files: map<string, seq<byte>>, id: string)
    requires IsIdentifier(id) && id !in files
    ensures GetPaste(id, name => ReadFrom(files, name)) == Response(BadRequest, PLAIN_TEXT, NOT_FOUND_BODY)
  {
    SanitizeKeepsIdentifiers(id);
  }

  /** Whatever the request path, the name read is free of '/', so it never
      reaches outside the storage directory's own entries. */
  lemma ReadNameHasNoSlash(hash: string, read: string -> ReadResult)
    ensures exists name :: '/' !in name && |name| <= |hash| && GetPaste(hash, read) == Respond(read(name))
  {
    var name := SanitizeName(hash);
    assert '/' !in name && |name| <= |hash| && GetPaste(hash, read) == Respond(read(name));
  }
}
