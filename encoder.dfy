/**
 * Preparing an upload for the generative model: the file's extension,
 * lower-cased, decides the MIME tag of the inline payload.
 */
module Encoder {
  import opened Wrappers
  import opened Strings

  /**
   * What is sent to the model beside the prompt: inline data tagged with a
   * MIME type, or the empty array `[]` for an extension the service does not
   * encode. `data` is the file's contents in base64, read and encoded outside
   * this model.
   */
  datatype Payload = InlineData(mimeType: string, data: string) | NoPayload

  const JpegMime: string := "image/jpeg"
  const PdfMime: string := "application/pdf"

  /** Lower-cases one character of the ASCII range A to Z. */
  function LowerChar(c: char): (r: char)
  {
    if 'A' <= c <= 'Z' then (c as int + 32) as char else c
  }

  /** `s.toLowerCase()` on ASCII letters. */
  function Lower(s: string): (r: string)
    ensures |r| == |s|
    ensures forall i | 0 <= i < |s| :: r[i] == LowerChar(s[i])
    ensures forall i | 0 <= i < |r| :: !('A' <= r[i] <= 'Z')
  {
    seq(|s|, i requires 0 <= i < |s| => LowerChar(s[i]))
  }

  /** The path without the separators that end it. */
  function DropTrailingSlashes(p: string): (r: string)
    ensures |r| <= |p| && r == p[..|r|]
    ensures r == [] || r[|r| - 1] != '/'
    ensures forall i | |r| <= i < |p| :: p[i] == '/'
  {
    if p != [] && p[|p| - 1] == '/' then DropTrailingSlashes(p[..|p| - 1]) else p
  }

  /** The final component of a POSIX path: what follows its last separator, trailing separators ignored. */
  function LastComponent(p: string): (c: string)
    ensures '/' !in c
    ensures var q := DropTrailingSlashes(p); |c| <= |q| && c == q[|q| - |c|..]
    ensures var q := DropTrailingSlashes(p); c == q || q[|q| - |c| - 1] == '/'
  {
    var q := DropTrailingSlashes(p);
    match LastIndex(q, '/')
    case None => q
    case Some(i) => q[i + 1..]
  }

  /**
   * `path.extname(p)`: the final component's suffix from its last dot; empty
   * when the component has no dot, when the dot is its first character, and
   * for the component "..".
   */
  function ExtName(p: string): (e: string)
    ensures e == [] || (e[0] == '.' && '.' !in e[1..] && '/' !in e)
    ensures '.' !in p ==> e == []
  {
    var c := LastComponent(p);
    assert forall i | 0 <= i < |c| :: c[i] in p by {
      var q := DropTrailingSlashes(p);
      forall i | 0 <= i < |c| ensures c[i] in p {
        assert c[i] == q[|q| - |c| + i] == p[|q| - |c| + i];
      }
    }
    ComponentExt(c)
  }

  /** The extension of one path component. */
  function ComponentExt(c: string): (e: string)
    ensures e == [] || (e[0] == '.' && '.' !in e[1..])
    ensures |e| <= |c| && e == c[|c| - |e|..]
    ensures c != [] ==> (e == [] <==> ('.' !in c[1..] || c == ".."))
  {
    match LastIndex(c, '.')
    case None => []
    case Some(d) => if d == 0 || c == ".." then [] else c[d..]
  }

  /**
   * The payload for a file: `.png`, `.jpg` and `.jpeg` in any letter case are
   * all tagged `image/jpeg`, `.pdf` is tagged `application/pdf`, anything
   * else gives no payload.
   */
  function FormatFileForAI(path: string, data: string): (r: Payload)
    ensures r.InlineData? ==> r.data == data && (r.mimeType == JpegMime || r.mimeType == PdfMime)
    ensures Lower(ExtName(path)) in {".png", ".jpg", ".jpeg"} ==> r == InlineData(JpegMime, data)
    ensures Lower(ExtName(path)) == ".pdf" ==> r == InlineData(PdfMime, data)
    ensures r == NoPayload <==> Lower(ExtName(path)) !in {".png", ".jpg", ".jpeg", ".pdf"}
  {
    PayloadFor(Lower(ExtName(path)), data)
  }

  /** The `switch` on the lower-cased extension. */
  function PayloadFor(ext: string, data: string): (r: Payload)
    ensures r.InlineData? ==> r.data == data && (r.mimeType == JpegMime || r.mimeType == PdfMime)
    ensures ext in {".png", ".jpg", ".jpeg"} ==> r == InlineData(JpegMime, data)
    ensures ext == ".pdf" ==> r == InlineData(PdfMime, data)
    ensures r == NoPayload <==> ext !in {".png", ".jpg", ".jpeg", ".pdf"}
  {
    if ext == ".png" || ext == ".jpg" || ext == ".jpeg" then InlineData(JpegMime, data)
    else if ext == ".pdf" then InlineData(PdfMime, data)
    else NoPayload
  }

  /** Two strings that are equal once lower-cased letter by letter. */
  predicate SameIgnoringCase(a: string, b: string)
  {
    |a| == |b| && forall i | 0 <= i < |a| :: LowerChar(a[i]) == LowerChar(b[i])
  }

  /** Dispatch is case-insensitive: extensions that differ only in letter case give the same payload. */
  lemma FormatIgnoresCase(p: string, q: string, data: string)
    requires SameIgnoringCase(ExtName(p), ExtName(q))
    ensures FormatFileForAI(p, data) == FormatFileForAI(q, data)
  {
    LowerOfSame(ExtName(p), ExtName(q));
  }

  lemma LowerOfSame(a: string, b: string)
    requires SameIgnoringCase(a, b)
    ensures Lower(a) == Lower(b)
  {
    assert forall i | 0 <= i < |a| :: Lower(a)[i] == Lower(b)[i];
  }

  /**
   * The extension of a file `stem.x` in any directory is `.x`, whenever the
   * stem is not empty and the name is not "..".
   */
  lemma ExtNameOfFile(dir: string, stem: string, x: string)
    requires stem != [] && '/' !in stem && '/' !in x && '.' !in x
    requires stem != "." || x != []
    ensures ExtName(dir + "/" + stem + "." + x) == "." + x
  {
    var name := stem + "." + x;
    assert dir + "/" + stem + "." + x == dir + "/" + name;
    assert '/' !in name;
    LastComponentOfFile(dir, name);
    ComponentExtOfName(stem, x);
  }

  /** The final component of `dir/name` is `name`, for a non-empty name without separators. */
  lemma LastComponentOfFile(dir: string, name: string)
    requires name != [] && '/' !in name
    ensures LastComponent(dir + "/" + name) == name
  {
    var p := dir + "/" + name;
    assert p[|p| - 1] == name[|name| - 1];
    assert DropTrailingSlashes(p) == p;
    assert p[|dir|] == '/';
    assert p[|dir| + 1..] == name;
    LastIndexAt(p, '/', |dir|);
  }

  /** The last dot of `stem.x` is the one before `x`. */
  lemma ComponentExtOfName(stem: string, x: string)
    requires stem != [] && '.' !in x
    requires stem != "." || x != []
    ensures ComponentExt(stem + "." + x) == "." + x
  {
    var name := stem + "." + x;
    assert name[|stem|] == '.' && name[|stem| + 1..] == x;
    LastIndexAt(name, '.', |stem|);
    assert name[|stem|..] == "." + x;
    assert name != ".." by {
      if |name| == 2 { assert stem == [name[0]]; }
    }
  }

  /** A name spelled like a lower-case extension, in any letter case, lower-cases to it. */
  lemma LowerOfDotted(x: string, ext: string)
    requires SameIgnoringCase(x, ext)
    requires forall i | 0 <= i < |ext| :: !('A' <= ext[i] <= 'Z')
    ensures Lower("." + x) == "." + ext
  {
    var l := Lower("." + x);
    forall i | 0 <= i < |l| ensures l[i] == ("." + ext)[i] {
      if i > 0 {
        assert ("." + x)[i] == x[i - 1];
      }
    }
  }

  /** The lower-cased extension of `dir/stem.x`, when `x` is spelled like `ext` in some letter case. */
  lemma LowerExtNameOfFile(dir: string, stem: string, x: string, ext: string)
    requires stem != [] && '/' !in stem && '/' !in x && '.' !in x && x != []
    requires SameIgnoringCase(x, ext)
    requires forall i | 0 <= i < |ext| :: !('A' <= ext[i] <= 'Z')
    ensures Lower(ExtName(dir + "/" + stem + "." + x)) == "." + ext
  {
    ExtNameOfFile(dir, stem, x);
    LowerOfDotted(x, ext);
  }

  /** The three image extensions, in any letter case, are all sent as `image/jpeg`, `.png` included. */
  lemma ImagesAreTaggedJpeg(dir: string, stem: string, x: string, ext: string, data: string)
    requires stem != [] && '/' !in stem && '/' !in x && '.' !in x
    requires ext in {"png", "jpg", "jpeg"} && SameIgnoringCase(x, ext)
    ensures FormatFileForAI(dir + "/" + stem + "." + x, data) == InlineData(JpegMime, data)
  {
    var path := dir + "/" + stem + "." + x;
    assert "." + ext in {".png", ".jpg", ".jpeg"} by {
      if ext == "png" { assert "." + ext == ".png"; }
      else if ext == "jpg" { assert "." + ext == ".jpg"; }
      else { assert "." + ext == ".jpeg"; }
    }
    LowerExtNameOfFile(dir, stem, x, ext);
  }

  /** A PDF, in any letter case, is sent as `application/pdf`. */
  lemma PdfIsTaggedPdf(dir: string, stem: string, x: string, data: string)
    requires stem != [] && '/' !in stem && '/' !in x && '.' !in x
    requires SameIgnoringCase(x, "pdf")
    ensures FormatFileForAI(dir + "/" + stem + "." + x, data) == InlineData(PdfMime, data)
  {
    var path := dir + "/" + stem + "." + x;
    LowerExtNameOfFile(dir, stem, x, "pdf");
    DottedPdf();
  }

  lemma DottedPdf()
    ensures "." + "pdf" == ".pdf"
  {
  }

  /** A file name without a dot has no extension, whatever dots its directory holds. */
  lemma NoDotNoExtension(dir: string, name: string)
    requires name != [] && '/' !in name && '.' !in name
    ensures ExtName(dir + "/" + name) == []
  {
    LastComponentOfFile(dir, name);
  }

  /** A name whose only dot is its first character, such as `.env`, has no extension. */
  lemma HiddenFileHasNoExtension(dir: string, name: string)
    requires name != [] && name[0] == '.' && '/' !in name && '.' !in name[1..]
    ensures ExtName(dir + "/" + name) == []
  {
    LastComponentOfFile(dir, name);
    LastIndexAt(name, '.', 0);
  }

  /** The component ".." has no extension, although its last dot is not its first character. */
  lemma ParentHasNoExtension(dir: string)
    ensures ExtName(dir + "/..") == []
  {
    assert dir + "/.." == dir + "/" + "..";
    assert LastComponent(dir + "/..") == ".." by {
      LastComponentOfFile(dir, "..");
    }
    assert ComponentExt("..") == [] by {
      LastIndexAt("..", '.', 1);
    }
  }

  /** Any other extension, and a name with none, gives no payload. */
  lemma OtherExtensionsGiveNoPayload(path: string, data: string)
    requires Lower(ExtName(path)) !in {".png", ".jpg", ".jpeg", ".pdf"}
    ensures FormatFileForAI(path, data) == NoPayload
  {
  }
}
