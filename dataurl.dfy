/** dataUrlToBlob of src/image/index.ts: a data URL
    `data:<mime>;base64,<payload>` (RFC 2397) split into the MIME type named
    in its header and the bytes its base64 payload decodes to.

    `atob` is not modelled: it is the parameter `atob` of type Decoder, which
    gives the decoded text, or None where atob throws. */
module DataUrl {
  import opened Wrappers

  /** One element of a Uint8Array. */
  newtype byte = x: int | 0 <= x < 256

  /** The decoder behind `atob`: the decoded binary string, or None when the
      input is not valid forgiving base64 (atob then throws). */
  type Decoder = string -> Option<string>

  /** What dataUrlToBlob can throw: the DOMException of atob. */
  datatype Error = InvalidCharacterError

  /** A File: its bytes, its name and its type. */
  datatype File = File(bits: seq<byte>, name: string, mimeType: string)

  /** The text JavaScript makes of `null` where a string is expected. */
  const NullText: string := "null"

  /** DataUrlToBlobResult: the MIME type, or null; the bytes, or null. */
  datatype BlobResult = BlobResult(mime: Option<string>, blob: Option<seq<byte>>) {

    /** `toFile(fileName)`: a File over the bytes, typed with the MIME type.
        Reading `.buffer` of a null blob throws, so the bytes must be there;
        a null MIME type becomes the type "null". */
    function ToFile(fileName: string): (f: File)
      requires blob.Some?
      ensures f.bits == blob.value && f.name == fileName
      ensures mime.Some? ==> f.mimeType == mime.value
      ensures mime.None? ==> f.mimeType == NullText
    {
      File(blob.value, fileName, mime.GetOr(NullText))
    }
  }

  // ------------------------------------------------------------- split

  /** `s.split(sep)`: the pieces between the separators, every separator
      counted (two adjacent separators give an empty piece). */
  function Split(s: string, sep: char): (parts: seq<string>)
    ensures |parts| >= 1
    ensures forall i :: 0 <= i < |parts| ==> sep !in parts[i]
  {
    if s == [] then [[]]
    else
      var rest := Split(s[1..], sep);
      if s[0] == sep then [[]] + rest else [[s[0]] + rest[0]] + rest[1..]
  }

  /** `parts.join(sep)`. */
  function Join(parts: seq<string>, sep: char): string
    requires |parts| >= 1
  {
    if |parts| == 1 then parts[0] else parts[0] + [sep] + Join(parts[1..], sep)
  }

  /** Splitting loses nothing: joining the pieces gives the text back. */
  lemma {:induction false} JoinSplit(s: string, sep: char)
    ensures Join(Split(s, sep), sep) == s
  {
    if s != [] {
      var rest := Split(s[1..], sep);
      JoinSplit(s[1..], sep);
      if s[0] == sep {
        assert ([[]] + rest)[1..] == rest;
      } else {
        var parts := [[s[0]] + rest[0]] + rest[1..];
        if |rest| == 1 {
          assert parts == [[s[0]] + rest[0]];
        } else {
          assert parts[1..] == rest[1..];
          assert Join(rest, sep) == rest[0] + [sep] + Join(rest[1..], sep);
        }
      }
    }
  }

  /** Splitting the joined pieces gives the same pieces back, when no piece
      holds the separator. */
  lemma {:induction false} SplitJoin(parts: seq<string>, sep: char)
    requires |parts| >= 1
    requires forall i :: 0 <= i < |parts| ==> sep !in parts[i]
    ensures Split(Join(parts, sep), sep) == parts
  {
    if |parts| == 1 {
      SplitFree(parts[0], sep);
    } else {
      SplitJoin(parts[1..], sep);
      SplitAt(parts[0] + [sep] + Join(parts[1..], sep), sep, |parts[0]|);
      assert (parts[0] + [sep] + Join(parts[1..], sep))[..|parts[0]|] == parts[0];
      assert (parts[0] + [sep] + Join(parts[1..], sep))[|parts[0]| + 1..] == Join(parts[1..], sep);
    }
  }

  /** Text without the separator is one piece. */
  lemma {:induction false} SplitFree(s: string, sep: char)
    requires sep !in s
    ensures Split(s, sep) == [s]
  {
    if s != [] {
      SplitFree(s[1..], sep);
      assert [s[0]] + s[1..] == s;
    }
  }

  /** The first piece ends at the first separator, and the pieces after it
      are those of the text after it. */
  lemma {:induction false} SplitAt(s: string, sep: char, i: nat)
    requires i < |s| && s[i] == sep && sep !in s[..i]
    ensures Split(s, sep) == [s[..i]] + Split(s[i + 1..], sep)
  {
    if i > 0 {
      assert s[1..][..i - 1] == s[1..i];
      assert s[1..][i..] == s[i + 1..];
      SplitAt(s[1..], sep, i - 1);
      assert [s[0]] + s[1..i] == s[..i];
    }
  }

  // -------------------------------------------------------------- mime

  /** The characters that `.` in a JavaScript regular expression does not match. */
  predicate IsLineTerminator(c: char) {
    c == '\n' || c == '\r' || c == '\U{2028}' || c == '\U{2029}'
  }

  /** Between `from` (inclusive) and `to` (exclusive) there is neither a `;`
      nor a line terminator. */
  predicate Clean(s: string, from: nat, to: nat)
    requires from <= to <= |s|
  {
    forall k :: from <= k < to ==> s[k] != ';' && !IsLineTerminator(s[k])
  }

  /** /:(.*?);/ matches `s` with its `:` at `a` and its `;` at `e`; the lazy
      `.*?` stops at the first `;`. */
  predicate MatchAt(s: string, a: nat, e: nat) {
    a < e < |s| && s[a] == ':' && s[e] == ';' && Clean(s, a + 1, e)
  }

  /** Where the lazy `(.*?);` started at `j` ends: the first `;` from `j`
      on, provided no line terminator comes first. */
  function LazyEnd(s: string, j: nat): (r: Option<nat>)
    requires j <= |s|
    ensures r.Some? ==> j <= r.value < |s| && s[r.value] == ';' && Clean(s, j, r.value)
    ensures r.None? ==> forall e :: j <= e < |s| && s[e] == ';' ==> !Clean(s, j, e)
    decreases |s| - j
  {
    if j == |s| then None
    else if s[j] == ';' then Some(j)
    else if IsLineTerminator(s[j]) then None
    else LazyEnd(s, j + 1)
  }

  /** The leftmost match of /:(.*?);/ that starts at `i` or later: the
      positions of its `:` and of its `;`. */
  function Search(s: string, i: nat): (m: Option<(nat, nat)>)
    requires i <= |s|
    ensures m.Some? ==> i <= m.value.0 && MatchAt(s, m.value.0, m.value.1)
    decreases |s| - i
  {
    if i == |s| then None
    else if s[i] == ':' && LazyEnd(s, i + 1).Some? then Some((i, LazyEnd(s, i + 1).value))
    else Search(s, i + 1)
  }

  /** A match of /:(.*?);/ is determined by where it starts. */
  lemma MatchAtUnique(s: string, a: nat, e: nat, e': nat)
    requires MatchAt(s, a, e) && MatchAt(s, a, e')
    ensures e == e'
  {
    assert s[e] == ';' && s[e'] == ';';
  }

  /** Search finds the leftmost match: nothing matches before what it
      returns, and it returns nothing only when nothing matches. */
  lemma {:induction false} SearchLeftmost(s: string, i: nat, a: nat, e: nat)
    requires i <= a && MatchAt(s, a, e)
    ensures Search(s, i).Some?
    ensures Search(s, i).value.0 <= a
    ensures Search(s, i).value.0 == a ==> Search(s, i).value.1 == e
    decreases a - i
  {
    if s[i] == ':' && LazyEnd(s, i + 1).Some? {
      if i == a {
        MatchAtUnique(s, a, e, Search(s, i).value.1);
      }
    } else {
      if i == a {
        assert false;
      } else {
        SearchLeftmost(s, i + 1, a, e);
      }
    }
  }

  /** The text the capture group of /:(.*?);/ holds in `header`, or None
      when the expression does not match. */
  function MatchMime(header: string): (mime: Option<string>)
    ensures mime.Some? ==> forall k :: 0 <= k < |mime.value| ==> mime.value[k] != ';' && !IsLineTerminator(mime.value[k])
  {
    match Search(header, 0)
    case None => None
    case Some((a, e)) => Some(header[a + 1..e])
  }

  /** MatchMime in declarative terms: it holds the text between the `:` and
      the `;` of the leftmost match, and it is None exactly when there is no
      match at all. */
  lemma MatchMimeLeftmost(header: string, a: nat, e: nat)
    requires MatchAt(header, a, e)
    requires forall a': nat, e': nat :: a' < a ==> !MatchAt(header, a', e')
    ensures MatchMime(header) == Some(header[a + 1..e])
  {
    SearchLeftmost(header, 0, a, e);
    var m := Search(header, 0).value;
    if m.0 < a {
      assert false;
    }
  }

  lemma MatchMimeNone(header: string)
    ensures MatchMime(header).None? <==> forall a: nat, e: nat :: !MatchAt(header, a, e)
  {
    if MatchMime(header).None? {
      forall a: nat, e: nat | MatchAt(header, a, e)
        ensures false
      {
        SearchLeftmost(header, 0, a, e);
      }
    }
  }

  /** The MIME part of the header: `mime` stays null for an empty header,
      and for any header the expression does not match. */
  function HeaderMime(header: string): (mime: Option<string>)
    ensures mime.None? <==> forall a: nat, e: nat :: !MatchAt(header, a, e)
  {
    if header == [] then None else MatchMimeNone(header); MatchMime(header)
  }

  // --------------------------------------------------------------- blob

  /** A character code stored into a Uint8Array: the store keeps the code
      modulo 256. */
  function CharCode(c: char): (b: byte)
    ensures c as int < 256 ==> b as int == c as int
  {
    (c as int % 256) as byte
  }

  /** The bytes of a decoded binary string, index by index. */
  function CharCodes(data: string): (bytes: seq<byte>)
    ensures |bytes| == |data|
  {
    seq(|data|, i requires 0 <= i < |data| => CharCode(data[i]))
  }

  /** `new Uint8Array(n)` (all zeros), then
      `while (n--) blob[n] = data.charCodeAt(n)`: each index is written once,
      from the last down to the first. */
  method FillBlob(data: string) returns (blob: array<byte>)
    ensures fresh(blob)
    ensures blob[..] == CharCodes(data)
  {
    var n := |data|;
    blob := new byte[n](_ => 0);
    while n > 0
      invariant 0 <= n <= |data| == blob.Length
      invariant forall k :: 0 <= k < n ==> blob[k] == 0
      invariant forall k :: n <= k < |data| ==> blob[k] == CharCode(data[k])
    {
      n := n - 1;
      blob[n] := CharCode(data[n]);
    }
  }

  // ------------------------------------------------------- dataUrlToBlob

  /** The text "undefined" that atob receives when the URL has no comma. */
  const UndefinedArgument: string := "undefined"

  /** `atob(dataUrlParts[1])`. With no second part the argument is
      `undefined`, read as the nine characters "undefined"; forgiving base64
      (section 4 of RFC 4648, with padding optional) rejects every input
      whose length leaves 1 modulo 4, so that call always throws. */
  function DecodePayload(part: Option<string>, atob: Decoder): (r: Result<string, Error>)
    ensures part.None? ==> r == Failure(InvalidCharacterError)
    ensures part.Some? && atob(part.value).Some? ==> r == Success(atob(part.value).value)
    ensures part.Some? && atob(part.value).None? ==> r == Failure(InvalidCharacterError)
  {
    match part
    case None => assert |UndefinedArgument| % 4 == 1; Failure(InvalidCharacterError)
    case Some(p) =>
      match atob(p)
      case None => Failure(InvalidCharacterError)
      case Some(data) => Success(data)
  }

  /** dataUrlToBlob(dataUrl) as a value: split on every comma, decode the
      second piece (throwing as atob does), read the MIME type from the
      first piece, and keep the bytes only when the decoded text is
      non-empty. */
  function ParseDataUrl(dataUrl: string, atob: Decoder): (r: Result<Option<BlobResult>, Error>)
    ensures r.Success? ==> r.value.Some?
    ensures r.Success? && r.value.value.blob.Some? ==> r.value.value.blob.value != []
  {
    var parts := Split(dataUrl, ',');
    if |parts| == 0 then assert false; Success(None)
    else
      match DecodePayload(if |parts| > 1 then Some(parts[1]) else None, atob)
      case Failure(e) => Failure(e)
      case Success(data) =>
        Success(Some(BlobResult(HeaderMime(parts[0]), if data == [] then None else Some(CharCodes(data)))))
  }

  /** dataUrlToBlob(dataUrl), with its count-down fill of the byte array. */
  method DataUrlToBlob(dataUrl: string, atob: Decoder) returns (r: Result<Option<BlobResult>, Error>)
    ensures r == ParseDataUrl(dataUrl, atob)
    ensures r.Success? ==> r.value.Some?
  {
    var dataUrlParts := Split(dataUrl, ',');
    if |dataUrlParts| == 0 {
      assert false;
      return Success(None);
    }
    var mimePart := dataUrlParts[0];
    var dataPart := DecodePayload(if |dataUrlParts| > 1 then Some(dataUrlParts[1]) else None, atob);
    if dataPart.Failure? {
      return Failure(dataPart.error);
    }
    var mime: Option<string> := None;
    if mimePart != [] {
      mime := MatchMime(mimePart);
    }
    var blob: Option<seq<byte>> := None;
    if dataPart.value != [] {
      var bytes := FillBlob(dataPart.value);
      blob := Some(bytes[..]);
    }
    return Success(Some(BlobResult(mime, blob)));
  }

  // ------------------------------------------------------------ properties

  /** Without a comma there is no payload, and atob of `undefined` throws. */
  lemma ParseWithoutComma(dataUrl: string, atob: Decoder)
    requires ',' !in dataUrl
    ensures ParseDataUrl(dataUrl, atob) == Failure(InvalidCharacterError)
  {
    SplitFree(dataUrl, ',');
  }

  /** Only the text before the first comma gives the MIME type, and only the
      text between the first and the second comma is decoded; whatever
      follows a second comma is ignored. */
  lemma ParseAtFirstComma(header: string, rest: string, atob: Decoder)
    requires ',' !in header
    ensures var r := ParseDataUrl(header + [','] + rest, atob);
            var payload := Split(rest, ',')[0];
            && (r.Failure? <==> atob(payload).None?)
            && (r.Success? ==> r.value.Some? && r.value.value.mime == HeaderMime(header))
            && (r.Success? ==> var data := atob(payload).value;
                 r.value.value.blob == if data == [] then None else Some(CharCodes(data)))
  {
    var url := header + [','] + rest;
    assert url[..|header|] == header;
    assert url[|header| + 1..] == rest;
    SplitAt(url, ',', |header|);
  }

  /** The data URL `data:<mime>;base64,<payload>` of RFC 2397, as
      canvas.toDataURL produces it. */
  function MakeDataUrl(mime: string, payload: string): string {
    "data:" + mime + ";base64," + payload
  }

  /** A MIME type as it can appear in a data URL header: no `;`, no `,`
      and no line break. */
  predicate IsPlainMime(mime: string) {
    forall k :: 0 <= k < |mime| ==> mime[k] != ';' && mime[k] != ',' && !IsLineTerminator(mime[k])
  }

  /** The header `data:<mime>;base64` yields exactly `<mime>`. */
  lemma HeaderMimeOfDataHeader(mime: string)
    requires IsPlainMime(mime)
    ensures HeaderMime("data:" + mime + ";base64") == Some(mime)
  {
    var h := "data:" + mime + ";base64";
    var e := 5 + |mime|;
    assert h[4] == ':' && h[e] == ';';
    assert forall k :: 5 <= k < e ==> h[k] == mime[k - 5];
    assert MatchAt(h, 4, e);
    forall a': nat, e': nat | a' < 4
      ensures !MatchAt(h, a', e')
    {
      assert h[a'] == "data"[a'];
    }
    MatchMimeLeftmost(h, 4, e);
    assert h[5..e] == mime;
  }

  /** Round trip: the URL built from a MIME type and a base64 payload parses
      back to that MIME type and to the bytes the payload decodes to, or
      throws exactly when the payload is not base64. */
  lemma ParseMakeDataUrl(mime: string, payload: string, atob: Decoder)
    requires IsPlainMime(mime) && ',' !in payload
    ensures atob(payload).None? ==> ParseDataUrl(MakeDataUrl(mime, payload), atob) == Failure(InvalidCharacterError)
    ensures atob(payload).Some? ==>
      var data := atob(payload).value;
      ParseDataUrl(MakeDataUrl(mime, payload), atob)
        == Success(Some(BlobResult(Some(mime), if data == [] then None else Some(CharCodes(data)))))
  {
    var header := "data:" + mime + ";base64";
    assert MakeDataUrl(mime, payload) == header + [','] + payload;
    assert forall k :: 0 <= k < |header| ==> header[k] != ',' by {
      forall k | 0 <= k < |header|
        ensures header[k] != ','
      {
        if 5 <= k < 5 + |mime| {
          assert header[k] == mime[k - 5];
        }
      }
    }
    SplitFree(payload, ',');
    HeaderMimeOfDataHeader(mime);
    ParseAtFirstComma(header, payload, atob);
  }

  /** The text a byte sequence spells, one character per byte. */
  function BinaryString(bytes: seq<byte>): (s: string)
    ensures |s| == |bytes|
  {
    seq(|bytes|, i requires 0 <= i < |bytes| => bytes[i] as int as char)
  }

  /** atob returns a binary string (every code below 256); its bytes spell
      it back, and any bytes are the bytes of the text they spell. */
  lemma CharCodesRoundTrip(data: string, bytes: seq<byte>)
    ensures (forall k :: 0 <= k < |data| ==> data[k] as int < 256) ==> BinaryString(CharCodes(data)) == data
    ensures CharCodes(BinaryString(bytes)) == bytes
  {
    if forall k :: 0 <= k < |data| ==> data[k] as int < 256 {
      assert forall k :: 0 <= k < |data| ==> BinaryString(CharCodes(data))[k] == data[k];
    }
    assert forall k :: 0 <= k < |bytes| ==> CharCodes(BinaryString(bytes))[k] == bytes[k];
  }

  /** "data:," (the data URL of an empty bitmap) has no MIME type and, as
      atob("") is "", no bytes. */
  lemma ParseEmptyDataUrl(atob: Decoder)
    requires atob([]) == Some([])
    ensures ParseDataUrl("data:,", atob) == Success(Some(BlobResult(None, None)))
  {
    var header := "data:";
    assert "data:," == header + [','] + [];
    assert ';' !in header;
    MatchMimeNone(header);
    ParseAtFirstComma(header, [], atob);
  }
}
