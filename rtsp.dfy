/** The request and response handling of the RTSP scanner (`rtsp.py`): the
    DESCRIBE request of section 10.2 of RFC 2326 with an optional Basic
    `Authorization` header (section 2 of RFC 7617), the split of a response
    into status line, headers and body, the `m=` lines of the SDP body
    (section 5.14 of RFC 4566), and the summary message of a scan. The socket
    exchange is a parameter: it maps the request text to what was read. */
module Rtsp {
  import opened Text
  import opened Codec
  import opened Assoc
  import opened Seqs

  const CrLf: string := "\r\n"

  // =====================================================================
  // Request

  const AuthPrefix: string := "Authorization: Basic "

  /** `build_basic_auth_header`: base64 of the UTF-8 bytes of `user:pass`. */
  function BasicAuthHeader(username: string, password: string): string {
    AuthPrefix + Base64Encode(Utf8Encode(username + ":" + password))
  }

  /** The header decodes back to `username:password`. */
  lemma BasicAuthHeaderDecodes(username: string, password: string)
    ensures var h := BasicAuthHeader(username, password);
      StartsWith(h, AuthPrefix)
      && Base64Decode(h[|AuthPrefix|..]) == Some(Utf8Encode(username + ":" + password))
      && Utf8Decode(Base64Decode(h[|AuthPrefix|..]).value) == Some(username + ":" + password)
  {
    var h := BasicAuthHeader(username, password);
    assert h[|AuthPrefix|..] == Base64Encode(Utf8Encode(username + ":" + password));
    Base64RoundTrip(Utf8Encode(username + ":" + password));
    Utf8RoundTrip(username + ":" + password);
  }

  /** A server splitting the decoded text at its first colon recovers both
      credentials, as long as the username has no colon (section 2 of
      RFC 7617 forbids one). */
  lemma BasicAuthCredentials(username: string, password: string)
    requires ':' !in username
    ensures SplitOnce(username + ":" + password, ":") == (username, Some(password))
  {
    var t := username + ":" + password;
    assert t[|username|] == ':';
    forall j | 0 <= j < |username| ensures t[j] != ':' {
      assert t[j] == username[j];
    }
    IndexOfChar(t, ':', |username|);
    SplitOnceAt(t, ":", |username|);
    assert t[..|username|] == username;
    assert t[|username| + 1..] == password;
  }

  /** Python's truth value of an optional string: given and non-empty. */
  predicate Given(s: Option<string>) {
    s.Some? && s.value != ""
  }

  function RequestLine(ip: string, port: int, path: string): string {
    "DESCRIBE rtsp://" + ip + ":" + IntToString(port) + path + " RTSP/1.0"
  }

  /** The request lines; the last, empty one ends the header block. */
  function DescribeLines(ip: string, port: int, path: string,
                         username: Option<string>, password: Option<string>): seq<string>
  {
    [RequestLine(ip, port, path), "CSeq: 2", "User-Agent: RTSPDeepScanner/1.0", "Accept: application/sdp"]
    + (if Given(username) && Given(password) then [BasicAuthHeader(username.value, password.value)] else [])
    + [""]
  }

  /** The DESCRIBE request text sent to the server. */
  function DescribeRequest(ip: string, port: int, path: string,
                           username: Option<string>, password: Option<string>): string
  {
    Join(DescribeLines(ip, port, path, username, password), CrLf) + CrLf
  }

  /** The credentials line is sent exactly when both username and password
      are non-empty, and it sits right before the closing empty line. */
  lemma AuthLineIff(ip: string, port: int, path: string,
                    username: Option<string>, password: Option<string>)
    ensures var lines := DescribeLines(ip, port, path, username, password);
      (Given(username) && Given(password) <==> |lines| == 6)
      && (|lines| == 6 ==> lines[4] == BasicAuthHeader(username.value, password.value))
      && lines[|lines| - 1] == ""
  {
  }

  /** The request ends with an empty line: it ends in `\r\n\r\n`. */
  lemma DescribeRequestEnds(ip: string, port: int, path: string,
                            username: Option<string>, password: Option<string>)
    ensures var req := DescribeRequest(ip, port, path, username, password);
      |req| >= 4 && req[|req| - 4..] == "\r\n\r\n"
      && StartsWith(req, RequestLine(ip, port, path) + CrLf)
  {
    var lines := DescribeLines(ip, port, path, username, password);
    var init := lines[..|lines| - 1];
    assert lines == init + [""];
    JoinSnoc(init, "", CrLf);
    var req := DescribeRequest(ip, port, path, username, password);
    assert req == Join(init, CrLf) + "\r\n\r\n";
    JoinCons(init[0], init[1..], CrLf);
    assert init == [init[0]] + init[1..];
  }

  lemma NoCrInDigits(s: string)
    requires forall i :: 0 <= i < |s| ==> IsDigit(s[i])
    ensures '\r' !in s
  {
  }

  lemma NoCrInInt(n: int)
    ensures '\r' !in IntToString(n)
  {
    if n < 0 {
      NoCrInDigits(NatToString(-n));
    } else {
      NoCrInDigits(NatToString(n));
    }
  }

  lemma NoCrInAuthHeader(username: string, password: string)
    ensures '\r' !in BasicAuthHeader(username, password)
  {
    var e := Base64Encode(Utf8Encode(username + ":" + password));
    Base64Alphabet(Utf8Encode(username + ":" + password));
    assert !IsB64Char('\r');
    assert '\r' !in e;
  }

  lemma DescribeLinesNoCr(ip: string, port: int, path: string,
                          username: Option<string>, password: Option<string>)
    requires '\r' !in ip && '\r' !in path
    ensures forall i :: 0 <= i < |DescribeLines(ip, port, path, username, password)| ==>
              '\r' !in DescribeLines(ip, port, path, username, password)[i]
  {
    NoCrInInt(port);
    if Given(username) && Given(password) {
      NoCrInAuthHeader(username.value, password.value);
    }
  }

  /** Reading the request back line by line gives the lines it was built
      from, followed by the empty text after the final CRLF. */
  lemma DescribeRequestSplits(ip: string, port: int, path: string,
                              username: Option<string>, password: Option<string>)
    requires '\r' !in ip && '\r' !in path
    ensures Split(DescribeRequest(ip, port, path, username, password), CrLf)
            == DescribeLines(ip, port, path, username, password) + [""]
  {
    var lines := DescribeLines(ip, port, path, username, password);
    var parts := lines + [""];
    JoinSnoc(lines, "", CrLf);
    assert Join(lines, CrLf) + CrLf + "" == Join(lines, CrLf) + CrLf;
    assert CrLf[0] == '\r';
    DescribeLinesNoCr(ip, port, path, username, password);
    forall i | 0 <= i < |parts| - 1 ensures IndexOf(parts[i] + CrLf, CrLf) == Some(|parts[i]|) {
      assert parts[i] == lines[i];
      SepFirst(parts[i], CrLf);
    }
    SepFirst("", CrLf);
    JoinSplit(parts, CrLf);
  }

  // =====================================================================
  // Response

  /** What the socket exchange produced: a socket error (its text), or the
      text read, decoded from UTF-8. */
  datatype Received = SocketFailure(reason: string) | Received(raw: string)

  /** The dictionary `send_rtsp_describe` returns. */
  datatype DescribeResponse = DescribeResponse(
    statusLine: Option<string>,
    statusCode: Option<nat>,
    headers: map<string, string>,
    body: Option<string>,
    error: Option<string>)

  const HeaderEnd: string := "\r\n\r\n"

  /** The number of leading ASCII digits. */
  function DigitRun(s: string): (n: nat)
    ensures n <= |s|
    ensures forall i :: 0 <= i < n ==> IsDigit(s[i])
    ensures n < |s| ==> !IsDigit(s[n])
  {
    if s == [] || !IsDigit(s[0]) then 0 else 1 + DigitRun(s[1..])
  }

  /** `re.match(r"RTSP/\d.\d\s+(\d+)\s+(.*)", line)` and `int(group(1))`:
      the code when the line has that shape, None otherwise. The greedy
      runs never need to backtrack: a shorter run of white space is followed
      by white space, not a digit, and a shorter run of digits by a digit. */
  function StatusCode(line: string): Option<nat> {
    if |line| < 8 || line[..5] != "RTSP/" || !IsDigit(line[5]) || line[6] == '\n' || !IsDigit(line[7]) then None
    else CodeAfterVersion(line[8..])
  }

  /** `\s+(\d+)\s+(.*)` after the version. */
  function CodeAfterVersion(a: string): Option<nat> {
    var w := LeadingSpaces(a);
    if w == 0 then None
    else
      var b := a[w..];
      var d := DigitRun(b);
      if d == 0 || LeadingSpaces(b[d..]) == 0 then None
      else Some(DigitsValue(b[..d]))
  }

  lemma {:induction false} DigitRunPrefix(digits: string, rest: string)
    requires forall i :: 0 <= i < |digits| ==> IsDigit(digits[i])
    requires rest != [] && IsSpace(rest[0])
    ensures DigitRun(digits + rest) == |digits|
    decreases |digits|
  {
    if digits != [] {
      assert (digits + rest)[1..] == digits[1..] + rest;
      DigitRunPrefix(digits[1..], rest);
    } else {
      assert digits + rest == rest;
    }
  }

  lemma LeadingSpaceOne(rest: string)
    requires rest == [] || !IsSpace(rest[0])
    ensures LeadingSpaces(" " + rest) == 1
  {
    assert (" " + rest)[1..] == rest;
  }

  lemma CodeAfterVersionOf(code: nat, reason: string)
    requires reason == [] || !IsSpace(reason[0])
    ensures CodeAfterVersion(" " + NatToString(code) + " " + reason) == Some(code)
  {
    var digits := NatToString(code);
    var a := " " + NatToString(code) + " " + reason;
    assert a == " " + (digits + " " + reason);
    NatToStringHead(code);
    LeadingSpaceOne(digits + " " + reason);
    var b := a[1..];
    assert b == digits + (" " + reason);
    DigitRunPrefix(digits, " " + reason);
    assert b[|digits|..] == " " + reason;
    LeadingSpaceOne(reason);
    assert b[..|digits|] == digits;
    DigitsValueOfNatToString(code);
  }

  /** A well-formed status line yields its code. */
  lemma StatusCodeOfStatusLine(major: char, minor: char, code: nat, reason: string)
    requires IsDigit(major) && IsDigit(minor)
    requires reason == [] || !IsSpace(reason[0])
    ensures StatusCode("RTSP/" + [major, '.', minor] + " " + NatToString(code) + " " + reason) == Some(code)
  {
    var tail := " " + NatToString(code) + " " + reason;
    assert "RTSP/" + [major, '.', minor] + " " + NatToString(code) + " " + reason
        == "RTSP/" + [major, '.', minor] + tail;
    StatusCodeAfterVersion(major, minor, tail);
    CodeAfterVersionOf(code, reason);
  }

  lemma StatusCodeAfterVersion(major: char, minor: char, tail: string)
    requires IsDigit(major) && IsDigit(minor)
    ensures StatusCode("RTSP/" + [major, '.', minor] + tail) == CodeAfterVersion(tail)
  {
    var version := "RTSP/" + [major, '.', minor];
    var line := version + tail;
    assert |version| == 8;
    assert line[..5] == version[..5] == "RTSP/";
    assert line[5] == major && line[6] == '.' && line[7] == minor;
    assert line[8..] == tail;
  }

  lemma NatToStringHead(n: nat)
    ensures !IsSpace(NatToString(n)[0])
  {
    assert IsDigit(NatToString(n)[0]);
  }

  /** A status line with no reason phrase, not even the space before it,
      does not match, so its code is not read. */
  lemma StatusCodeNeedsReasonSeparator()
    ensures StatusCode("RTSP/1.0 200") == None
  {
    var line := "RTSP/1.0 200";
    assert line[..5] == "RTSP/";
    var a := line[8..];
    assert a == " 200";
    LeadingSpaceOne("200");
    assert a[1..] == "200";
    assert DigitRun("200") == 3;
    assert "200"[3..] == [];
  }

  /** The header a line defines: the parts before and after its first
      colon, stripped; None for a line without a colon. */
  function HeaderEntry(line: string): Option<(string, string)> {
    match SplitOnce(line, ":")
    case (name, Some(value)) => Some((Strip(name), Strip(value)))
    case (_, None) => None
  }

  /** The header dictionary: assignments in line order, so the last line
      naming a header gives its value. */
  function HeaderMap(lines: seq<string>): map<string, string> {
    MapOf(FilterMap(lines, HeaderEntry))
  }

  /** The response for what the exchange produced. */
  function Describe(received: Received): DescribeResponse {
    match received
    case SocketFailure(reason) => DescribeResponse(None, None, map[], None, Some("Socket error: " + reason))
    case Received(raw) =>
      if raw == "" then DescribeResponse(None, None, map[], None, Some("No response or empty response."))
      else
        var parts := SplitOnce(raw, HeaderEnd);
        var lines := Split(parts.0, CrLf);
        DescribeResponse(Some(Strip(lines[0])), StatusCode(lines[0]), HeaderMap(lines[1..]),
                         Some(parts.1.GetOr("")), None)
  }

  /** The header loop of `send_rtsp_describe`. */
  method ReadHeaders(lines: seq<string>) returns (headers: map<string, string>)
    ensures headers == HeaderMap(lines)
  {
    headers := map[];
    for k := 0 to |lines|
      invariant headers == HeaderMap(lines[..k])
    {
      FilterMapStep(lines, k, HeaderEntry);
      var line := lines[k];
      if Contains(line, ":") {
        var nv := SplitOnce(line, ":");
        var entry := (Strip(nv.0), Strip(nv.1.value));
        assert HeaderEntry(line) == Some(entry);
        assert FilterMap(lines[..k + 1], HeaderEntry) == FilterMap(lines[..k], HeaderEntry) + [entry];
        MapOfSnoc(FilterMap(lines[..k], HeaderEntry), entry);
        headers := headers[Strip(nv.0) := Strip(nv.1.value)];
        assert headers == MapOf(FilterMap(lines[..k + 1], HeaderEntry));
      } else {
        assert HeaderEntry(line) == None;
        assert FilterMap(lines[..k + 1], HeaderEntry) == FilterMap(lines[..k], HeaderEntry) + [];
        assert FilterMap(lines[..k + 1], HeaderEntry) == FilterMap(lines[..k], HeaderEntry);
      }
    }
    FilterMapWhole(lines, HeaderEntry);
  }

  /** The response parsing of `send_rtsp_describe`. */
  method ParseDescribeResponse(received: Received) returns (result: DescribeResponse)
    ensures result == Describe(received)
  {
    result := DescribeResponse(None, None, map[], None, None);
    if received.SocketFailure? {
      result := result.(error := Some("Socket error: " + received.reason));
      return;
    }
    var raw := received.raw;
    if raw == "" {
      result := result.(error := Some("No response or empty response."));
      return;
    }
    var parts := SplitOnce(raw, HeaderEnd);
    var headerPart := parts.0;
    var bodyPart := if parts.1.Some? then parts.1.value else "";
    var lines := Split(headerPart, CrLf);
    result := result.(statusLine := Some(Strip(lines[0])));
    result := result.(statusCode := StatusCode(lines[0]));
    var headers := ReadHeaders(lines[1..]);
    result := result.(headers := headers, body := Some(bodyPart));
  }

  /** An error is reported exactly for a socket failure or an empty
      response; otherwise there is a status line and a body. The body is what
      follows the first blank line, or `""` when there is none. */
  lemma DescribeSplit(received: Received)
    ensures var r := Describe(received);
      && (r.error.Some? <==> received.SocketFailure? || received.raw == "")
      && (r.error.Some? ==> r.statusLine.None? && r.statusCode.None? && r.body.None? && r.headers == map[])
      && (r.error.None? ==> r.statusLine.Some? && r.body.Some?)
      && (r.error.None? && !Contains(received.raw, HeaderEnd) ==> r.body == Some(""))
      && (r.error.None? && Contains(received.raw, HeaderEnd) ==>
            exists head :: received.raw == head + HeaderEnd + r.body.value && !Contains(head, HeaderEnd))
  {
  }

  /** Lines without a colon are ignored; the others set their stripped name
      to their stripped value. */
  lemma HeaderMapOfLine(line: string)
    ensures !Contains(line, ":") ==> HeaderMap([line]) == map[]
    ensures Contains(line, ":") ==>
              exists name, value :: line == name + ":" + value && !Contains(name, ":")
                && HeaderMap([line]) == map[Strip(name) := Strip(value)]
  {
    FilterMapOne(line, HeaderEntry);
    var nv := SplitOnce(line, ":");
    if Contains(line, ":") {
      var e := (Strip(nv.0), Strip(nv.1.value));
      assert HeaderEntry(line) == Some(e);
      MapOfSnoc([], e);
      assert [] + [e] == [e];
      assert HeaderMap([line]) == map[e.0 := e.1];
      assert line == nv.0 + ":" + nv.1.value && !Contains(nv.0, ":");
    } else {
      assert HeaderEntry(line) == None;
    }
  }

  /** The header map of a block is the maps of its lines, each overriding
      the ones before. */
  lemma HeaderMapAppend(a: seq<string>, b: seq<string>)
    ensures HeaderMap(a + b) == HeaderMap(a) + HeaderMap(b)
  {
    FilterMapAppend(a, b, HeaderEntry);
    MapOfAppend(FilterMap(a, HeaderEntry), FilterMap(b, HeaderEntry));
  }

  // =====================================================================
  // SDP

  datatype Track = Track(media: string, port: string, proto: string, fmt: string)

  /** Python's `s[n:]`, which is empty past the end. */
  function Drop(s: string, n: nat): string {
    if n <= |s| then s[n..] else ""
  }

  /** The track an SDP line describes, if any. */
  function TrackOf(line: string): Option<Track> {
    var l := Strip(line);
    if !StartsWith(Lower(l), "m=") then None
    else
      var parts := Fields(l);
      if |parts| < 4 then None
      else Some(Track(Drop(parts[0], 2), parts[1], parts[2], Join(parts[3..], " ")))
  }

  function SdpTracks(lines: seq<string>): seq<Track> {
    FilterMap(lines, TrackOf)
  }

  /** The body of the `parse_sdp` loop for one line. */
  method ReadTrack(rawLine: string) returns (track: Option<Track>)
    ensures track == TrackOf(rawLine)
  {
    track := None;
    var line := Strip(rawLine);
    if StartsWith(Lower(line), "m=") {
      var parts := Fields(line);
      if |parts| >= 4 {
        var mediaType := Drop(parts[0], 2);
        var fmt := Join(parts[3..], " ");
        track := Some(Track(mediaType, parts[1], parts[2], fmt));
      }
    }
  }

  /** `parse_sdp`. */
  method ParseSdp(sdpData: string) returns (tracks: seq<Track>)
    ensures tracks == SdpTracks(Lines(sdpData))
  {
    tracks := [];
    var lines := Lines(sdpData);
    for k := 0 to |lines|
      invariant tracks == FilterMap(lines[..k], TrackOf)
    {
      FilterMapStep(lines, k, TrackOf);
      var track := ReadTrack(lines[k]);
      if track.Some? {
        tracks := tracks + [track.value];
      }
    }
    FilterMapWhole(lines, TrackOf);
  }

  lemma JoinFirstChar(parts: seq<string>, sep: string)
    requires |parts| >= 1 && parts[0] != []
    ensures Join(parts, sep) != [] && Join(parts, sep)[0] == parts[0][0]
  {
    if |parts| > 1 {
      JoinCons(parts[0], parts[1..], sep);
      assert parts == [parts[0]] + parts[1..];
    }
  }

  lemma {:induction false} JoinLastChar(parts: seq<string>, sep: string)
    requires |parts| >= 1 && parts[|parts| - 1] != []
    ensures Join(parts, sep) != []
    ensures Join(parts, sep)[|Join(parts, sep)| - 1] == parts[|parts| - 1][|parts[|parts| - 1]| - 1]
    decreases |parts|
  {
    if |parts| > 1 {
      JoinLastChar(parts[1..], sep);
    }
  }

  lemma JoinStartsWithFirst(parts: seq<string>, sep: string)
    requires |parts| >= 1
    ensures StartsWith(Join(parts, sep), parts[0])
  {
    if |parts| > 1 {
      var rest := sep + Join(parts[1..], sep);
      assert Join(parts, sep) == parts[0] + rest;
      assert (parts[0] + rest)[..|parts[0]|] == parts[0];
    }
  }

  lemma LowerKeepsMediaPrefix(line: string)
    requires StartsWith(line, "m=")
    ensures StartsWith(Lower(line), "m=")
  {
    assert line[0] == 'm' && line[1] == '=';
    assert Lower(line)[0] == 'm' && Lower(line)[1] == '=';
    assert Lower(line)[..2] == "m=";
  }

  lemma MediaLineShape(parts: seq<string>)
    requires |parts| >= 1 && forall i :: 0 <= i < |parts| ==> IsField(parts[i])
    requires StartsWith(parts[0], "m=")
    ensures Strip(Join(parts, " ")) == Join(parts, " ")
    ensures StartsWith(Lower(Join(parts, " ")), "m=")
    ensures Fields(Join(parts, " ")) == parts
  {
    var line := Join(parts, " ");
    assert Strip(line) == line by { MediaLineTrimmed(parts); }
    assert StartsWith(Lower(line), "m=") by { MediaLinePrefix(parts); }
    assert Fields(line) == parts by { FieldsOfJoin(parts); }
  }

  lemma MediaLineTrimmed(parts: seq<string>)
    requires |parts| >= 1 && forall i :: 0 <= i < |parts| ==> IsField(parts[i])
    ensures Strip(Join(parts, " ")) == Join(parts, " ")
  {
    JoinFirstChar(parts, " ");
    JoinLastChar(parts, " ");
    StripTrimmed(Join(parts, " "));
  }

  lemma MediaLinePrefix(parts: seq<string>)
    requires |parts| >= 1 && StartsWith(parts[0], "m=")
    ensures StartsWith(Lower(Join(parts, " ")), "m=")
  {
    var line := Join(parts, " ");
    JoinStartsWithFirst(parts, " ");
    assert line[..2] == line[..|parts[0]|][..2] == "m=";
    LowerKeepsMediaPrefix(line);
  }

  /** An `m=` line with at least four fields gives a track with the media
      name after `m=`, the port, the protocol, and the formats re-joined by
      single spaces. */
  lemma TrackOfMediaLine(media: string, port: string, proto: string, fmts: seq<string>)
    requires NoSpace(media) && IsField(port) && IsField(proto)
    requires fmts != [] && forall i :: 0 <= i < |fmts| ==> IsField(fmts[i])
    ensures TrackOf(Join(["m=" + media, port, proto] + fmts, " ")) == Some(Track(media, port, proto, Join(fmts, " ")))
  {
    var parts := ["m=" + media, port, proto] + fmts;
    MediaFieldsAreFields(media, port, proto, fmts);
    MediaLineShape(parts);
    TrackOfStripped(Join(parts, " "));
    assert parts[3..] == fmts;
    assert Drop(parts[0], 2) == media;
  }

  lemma MediaFieldsAreFields(media: string, port: string, proto: string, fmts: seq<string>)
    requires NoSpace(media) && IsField(port) && IsField(proto)
    requires forall i :: 0 <= i < |fmts| ==> IsField(fmts[i])
    ensures var parts := ["m=" + media, port, proto] + fmts;
      && StartsWith(parts[0], "m=")
      && forall i :: 0 <= i < |parts| ==> IsField(parts[i])
  {
    var parts := ["m=" + media, port, proto] + fmts;
    assert parts[0] == "m=" + media;
    assert parts[0][..2] == "m=";
    forall i | 0 <= i < |parts| ensures IsField(parts[i]) {
      if i >= 3 {
        assert parts[i] == fmts[i - 3];
      }
    }
  }

  lemma TrackOfStripped(line: string)
    requires Strip(line) == line && StartsWith(Lower(line), "m=") && |Fields(line)| >= 4
    ensures var parts := Fields(line);
      TrackOf(line) == Some(Track(Drop(parts[0], 2), parts[1], parts[2], Join(parts[3..], " ")))
  {
  }

  // =====================================================================
  // Scan summary

  /** The dictionary `scan_rtsp_target` returns. */
  datatype ScanSummary = ScanSummary(
    ip: string, port: int, path: string,
    statusLine: Option<string>, statusCode: Option<nat>, error: Option<string>,
    headers: map<string, string>, sdpTracks: seq<Track>, message: string)

  const MsgOkParsed: string := "RTSP OK, SDP parsed"
  const MsgOkNoTracks: string := "RTSP OK but no media tracks found"
  const MsgUnauthorized: string := "401 Unauthorized" + " - check credentials or server auth method"
  const MsgUnexpectedPrefix: string := "Unexpected status code "
  const MsgNoCode: string := "Could not parse status code"

  /** The summary of a response. */
  function Summarize(ip: string, port: int, path: string, response: DescribeResponse): ScanSummary {
    var base := ScanSummary(ip, port, path, response.statusLine, response.statusCode, response.error,
                            response.headers, [], "");
    if Given(response.error) then base.(message := "Error: " + response.error.value)
    else if response.statusCode == Some(200) then
      var tracks := SdpTracks(Lines(response.body.GetOr("")));
      base.(sdpTracks := tracks, message := if tracks != [] then MsgOkParsed else MsgOkNoTracks)
    else if response.statusCode == Some(401) then base.(message := MsgUnauthorized)
    else if response.statusCode.Some? then base.(message := MsgUnexpectedPrefix + NatToString(response.statusCode.value))
    else base.(message := MsgNoCode)
  }

  /** `scan_rtsp_target`; `exchange` stands for the socket conversation. */
  method ScanRtspTarget(ip: string, port: int, path: string,
                        username: Option<string>, password: Option<string>,
                        exchange: string -> Received)
    returns (summary: ScanSummary)
    ensures summary == Summarize(ip, port, path, Describe(exchange(DescribeRequest(ip, port, path, username, password))))
  {
    var response := ParseDescribeResponse(exchange(DescribeRequest(ip, port, path, username, password)));
    var code := response.statusCode;
    summary := ScanSummary(ip, port, path, response.statusLine, code, response.error, response.headers, [], "");
    if response.error.Some? && response.error.value != "" {
      summary := summary.(message := "Error: " + response.error.value);
      return;
    }
    if code == Some(200) {
      var body := if response.body.Some? then response.body.value else "";
      var sdpTracks := ParseSdp(body);
      summary := summary.(sdpTracks := sdpTracks);
      if sdpTracks != [] {
        summary := summary.(message := MsgOkParsed);
      } else {
        summary := summary.(message := MsgOkNoTracks);
      }
    } else if code == Some(401) {
      summary := summary.(message := MsgUnauthorized);
    } else if code.Some? {
      summary := summary.(message := MsgUnexpectedPrefix + NatToString(code.value));
    } else {
      summary := summary.(message := MsgNoCode);
    }
  }

  /** The errors `send_rtsp_describe` reports are never empty. */
  lemma DescribeErrorGiven(received: Received)
    ensures Describe(received).error.Some? ==> Given(Describe(received).error)
  {
  }

  /** Tracks are reported only for a 200 response without error, and an
      error leaves the tracks empty and the message `Error: ...`. */
  lemma SummaryTracks(ip: string, port: int, path: string, response: DescribeResponse)
    ensures var s := Summarize(ip, port, path, response);
      && (s.sdpTracks != [] ==> !Given(s.error) && s.statusCode == Some(200))
      && (Given(s.error) ==>
            s.sdpTracks == [] && StartsWith(s.message, "Error: ") && s.message[7..] == s.error.value)
  {
  }

  /** The messages tell the outcomes apart, and the code of an unexpected
      status can be read back from its message. */
  lemma SummaryMessages(ip: string, port: int, path: string, response: DescribeResponse)
    requires response.error.None?
    ensures var s := Summarize(ip, port, path, response);
      && (s.message == MsgOkParsed <==> response.statusCode == Some(200) && s.sdpTracks != [])
      && (s.message == MsgOkNoTracks <==> response.statusCode == Some(200) && s.sdpTracks == [])
      && (s.message == MsgUnauthorized <==> response.statusCode == Some(401))
      && (s.message == MsgNoCode <==> response.statusCode.None?)
      && (response.statusCode.Some? && response.statusCode.value !in {200, 401} ==>
            StartsWith(s.message, MsgUnexpectedPrefix)
            && DigitsValue(s.message[|MsgUnexpectedPrefix|..]) == response.statusCode.value)
  {
    if response.statusCode.Some? && response.statusCode.value !in {200, 401} {
      var c := response.statusCode.value;
      var m := MsgUnexpectedPrefix + NatToString(c);
      assert m[|MsgUnexpectedPrefix|..] == NatToString(c);
      DigitsValueOfNatToString(c);
      assert m[0] == 'U';
      assert MsgOkParsed[0] == 'R' && MsgOkNoTracks[0] == 'R';
      assert MsgUnauthorized[0] == '4';
      assert MsgNoCode[0] == 'C';
    }
  }
}
