/** Data URLs as the component builds and takes apart: the
    `data:image/jpeg;base64,` URI it makes from an inbound image, the
    `split(',')[1]` that removes the prefix of an outbound frame, and the
    `data:` URL syntax of section 3 of RFC 2397 that relates the two. */
module DataUrl {
  import opened Wrappers

  const Comma: char := ','

  /** The prefix the message handler puts before an inbound image
      (FatigueMonitor.jsx line 26): media type, base64 flag, comma. */
  const JpegBase64Prefix: string := "data:image/jpeg;base64,"

  /** The default media type of a data URL that omits one (RFC 2397 section 2). */
  const DefaultMediaType: string := "text/plain;charset=US-ASCII"

  // ---------------------------------------------------------------------
  // String.prototype.split(',') and its inverse

  /** `s.split(',')` in JavaScript: the comma-free runs of `s` in order,
      one more of them than `s` has commas; an empty `s` gives `[""]`. */
  function Split(s: string): (fields: seq<string>)
    ensures |fields| >= 1
    ensures forall i :: 0 <= i < |fields| ==> Comma !in fields[i]
  {
    if s == [] then [""]
    else
      var rest := Split(s[1..]);
      if s[0] == Comma then [""] + rest
      else [[s[0]] + rest[0]] + rest[1..]
  }

  /** `fields.join(',')`: the inverse of `Split`. */
  function Join(fields: seq<string>): string
    requires |fields| >= 1
  {
    if |fields| == 1 then fields[0]
    else fields[0] + [Comma] + Join(fields[1..])
  }

  /** Splitting loses nothing: joining the fields again gives back `s`. */
  lemma {:induction false} JoinSplit(s: string)
    ensures Join(Split(s)) == s
  {
    if s != [] {
      var rest := Split(s[1..]);
      JoinSplit(s[1..]);
      if s[0] == Comma {
        assert ([""] + rest)[1..] == rest;
      } else if |rest| > 1 {
        var head := [[s[0]] + rest[0]] + rest[1..];
        assert head[1..] == rest[1..];
        assert Join(rest) == rest[0] + [Comma] + Join(rest[1..]);
      }
      assert s == [s[0]] + s[1..];
    }
  }

  /** A string without a comma is a single field. */
  lemma {:induction false} SplitNoComma(s: string)
    requires Comma !in s
    ensures Split(s) == [s]
  {
    if s != [] {
      assert s[0] in s;
      assert forall c :: c in s[1..] ==> c in s;
      SplitNoComma(s[1..]);
      assert s == [s[0]] + s[1..];
    }
  }

  /** A single field is exactly a string without a comma. */
  lemma SplitSingleIff(s: string)
    ensures |Split(s)| == 1 <==> Comma !in s
  {
    if Comma !in s {
      SplitNoComma(s);
    } else {
      JoinSplit(s);
    }
  }

  /** The first comma ends the first field; the rest of the fields are
      those of what follows it. */
  lemma {:induction false} SplitAtFirstComma(a: string, b: string)
    requires Comma !in a
    ensures Split(a + [Comma] + b) == [a] + Split(b)
  {
    var s := a + [Comma] + b;
    if a == [] {
      assert s[0] == Comma && s[1..] == b;
    } else {
      assert a[0] in a;
      assert forall c :: c in a[1..] ==> c in a;
      assert s[0] == a[0] && s[1..] == a[1..] + [Comma] + b;
      SplitAtFirstComma(a[1..], b);
      assert a == [a[0]] + a[1..];
    }
  }

  // ---------------------------------------------------------------------
  // Prefix removal of an outbound frame

  /** `dataUrl.split(',')[1]` (FatigueMonitor.jsx line 55): the second
      field, or `undefined` (`None`) when there is no comma. It is the text
      after the first comma only up to the next comma, if there is one. */
  function StripPrefix(dataUrl: string): (r: Option<string>)
    ensures r.None? <==> Comma !in dataUrl
    ensures r.Some? ==> Comma !in r.value
  {
    SplitSingleIff(dataUrl);
    var fields := Split(dataUrl);
    if |fields| >= 2 then Some(fields[1]) else None
  }

  /** The result is the text between the first comma and the next comma
      (or the end of the string). */
  lemma StripPrefixAt(a: string, b: string)
    requires Comma !in a
    ensures StripPrefix(a + [Comma] + b) == Some(Split(b)[0])
    ensures Comma !in b ==> StripPrefix(a + [Comma] + b) == Some(b)
  {
    SplitAtFirstComma(a, b);
    if Comma !in b {
      SplitNoComma(b);
    }
  }

  // ---------------------------------------------------------------------
  // Searching a string

  /** Position of the first occurrence of `c` in `s`, if any. */
  function IndexOf(s: string, c: char): (r: Option<nat>)
    ensures r.None? <==> c !in s
    ensures r.Some? ==> r.value < |s| && s[r.value] == c && c !in s[..r.value]
  {
    if s == [] then None
    else if s[0] == c then Some(0)
    else
      match IndexOf(s[1..], c)
      case None => None
      case Some(i) =>
        assert s[..i + 1] == [s[0]] + s[1..][..i];
        Some(i + 1)
  }

  /** The first `c` after a `c`-free prefix is found right after it. */
  lemma IndexOfAfter(a: string, c: char, b: string)
    requires c !in a
    ensures IndexOf(a + [c] + b, c) == Some(|a|)
  {
    var s := a + [c] + b;
    assert s[|a|] == c;
    assert s[..|a|] == a;
  }

  // ---------------------------------------------------------------------
  // The data URL syntax of RFC 2397, section 3:
  //   dataurl := "data:" [ mediatype ] [ ";base64" ] "," data

  /** The parts of a data URL: its media type (after defaulting), whether
      the data is base64-encoded, and the data text itself. */
  datatype Parts = Parts(mediaType: string, base64: bool, data: string)

  /** Reads a data URL. The header runs from `data:` to the first comma
      and ends in `;base64` when the data is base64; an empty media type
      means `text/plain;charset=US-ASCII`, and one that starts with its
      parameters means type `text/plain` with them. */
  function Parse(s: string): (r: Option<Parts>)
    ensures r.Some? ==> Comma in s
  {
    if |s| < 5 || s[..5] != "data:" then None
    else
      var rest := s[5..];
      match IndexOf(rest, Comma)
      case None => None
      case Some(i) =>
        assert rest[i] == s[5 + i];
        var header := rest[..i];
        var isBase64 := |header| >= 7 && header[|header| - 7..] == ";base64";
        var declared := if isBase64 then header[..|header| - 7] else header;
        var mediaType :=
          if declared == [] then DefaultMediaType
          else if declared[0] == ';' then "text/plain" + declared
          else declared;
        Some(Parts(mediaType, isBase64, rest[i + 1..]))
  }

  /** The URI the message handler builds for an inbound image: a data URL
      of media type `image/jpeg` whose base64 data is exactly `body`. */
  function ToDataUri(body: string): (uri: string)
    ensures Parse(uri) == Some(Parts("image/jpeg", true, body))
  {
    var uri := JpegBase64Prefix + body;
    var header := "image/jpeg;base64";
    assert uri[..5] == "data:";
    assert uri[5..] == header + [Comma] + body;
    IndexOfAfter(header, Comma, body);
    assert (header + [Comma] + body)[..17] == header;
    assert (header + [Comma] + body)[18..] == body;
    assert header[10..] == ";base64";
    assert header[..10] == "image/jpeg";
    uri
  }

  /** Different bodies give different URIs. */
  lemma ToDataUriInjective(b1: string, b2: string)
    requires ToDataUri(b1) == ToDataUri(b2)
    ensures b1 == b2
  {
    assert Parse(ToDataUri(b1)).value.data == b1;
  }

  /** For any data URL whose data has no comma, prefix removal yields the
      data: `split(',')[1]` undoes the header of the RFC 2397 syntax. */
  lemma StripPrefixOfDataUrl(s: string)
    requires Parse(s).Some? && Comma !in Parse(s).value.data
    ensures StripPrefix(s) == Some(Parse(s).value.data)
  {
    var rest := s[5..];
    var i := IndexOf(rest, Comma).value;
    var a := s[..5] + rest[..i];
    assert s[..5] == "data:";
    assert Comma !in a by {
      forall k | 0 <= k < |a| ensures a[k] != Comma {
        if k >= 5 {
          assert a[k] == rest[..i][k - 5];
        }
      }
    }
    assert s == a + [Comma] + rest[i + 1..] by {
      assert rest == rest[..i] + [rest[i]] + rest[i + 1..];
      assert s == s[..5] + rest;
    }
    StripPrefixAt(a, rest[i + 1..]);
  }

  /** Round trip: removing the prefix of the URI built from a comma-free
      body gives the body back (ties FatigueMonitor.jsx line 26 to line 55). */
  lemma StripPrefixRoundTrip(body: string)
    requires Comma !in body
    ensures StripPrefix(ToDataUri(body)) == Some(body)
  {
    StripPrefixOfDataUrl(ToDataUri(body));
  }

  // ---------------------------------------------------------------------
  // Base64 text (RFC 4648 section 4)

  /** A character of the base64 alphabet or the pad character `=`. */
  predicate IsBase64Char(c: char) {
    ('A' <= c <= 'Z') || ('a' <= c <= 'z') || ('0' <= c <= '9')
    || c == '+' || c == '/' || c == '='
  }

  /** Text drawn from the base64 alphabet. */
  predicate IsBase64(s: string) {
    forall i :: 0 <= i < |s| ==> IsBase64Char(s[i])
  }

  /** Base64 text never contains the comma that `split(',')` cuts at. */
  lemma Base64HasNoComma(s: string)
    requires IsBase64(s)
    ensures Comma !in s
  {
    forall i | 0 <= i < |s| ensures s[i] != Comma {
      assert IsBase64Char(s[i]);
    }
  }

  /** Round trip for base64 bodies. */
  lemma Base64RoundTrip(body: string)
    requires IsBase64(body)
    ensures StripPrefix(ToDataUri(body)) == Some(body)
  {
    Base64HasNoComma(body);
    StripPrefixRoundTrip(body);
  }
}
