/**
 * The request-correlation header of the Node SDK (sdk/highlight-node/src/sdk.ts):
 * the header name and `H.parseHeaders`, which splits its value at '/' into the
 * session's secure id and the request id.
 */
module Sdk {

  import opened Wrappers

  /** The header the browser SDK adds to correlated requests. */
  const HighlightRequestHeader: string := "x-highlight-request"

  const Separator: char := '/'

  /** JavaScript's `s.split(sep)` for a one-character separator: the pieces between
      separators, in order; a string without `sep` gives itself alone. */
  function Split(s: string, sep: char): (parts: seq<string>)
    ensures |parts| >= 1
    ensures forall k :: 0 <= k < |parts| ==> sep !in parts[k]
    ensures Join(parts, sep) == s
    decreases |s|
  {
    if s == [] then [""]
    else
      var rest := Split(s[1..], sep);
      if s[0] == sep then
        assert s == [sep] + s[1..];
        [""] + rest
      else
        assert s == [s[0]] + s[1..];
        JoinCons(rest, sep);
        [[s[0]] + rest[0]] + rest[1..]
  }

  /** The pieces glued back together with `sep` between them. */
  function Join(parts: seq<string>, sep: char): string
    decreases |parts|
  {
    if parts == [] then ""
    else if |parts| == 1 then parts[0]
    else parts[0] + [sep] + Join(parts[1..], sep)
  }

  /** Putting a character in front of the first piece puts it in front of the joined string. */
  lemma JoinCons(parts: seq<string>, sep: char)
    requires |parts| >= 1
    ensures forall c :: Join([[c] + parts[0]] + parts[1..], sep) == [c] + Join(parts, sep)
  {
  }

  /** Splitting undoes joining, when no piece holds the separator. */
  lemma {:induction false} SplitJoin(parts: seq<string>, sep: char)
    requires |parts| >= 1
    requires forall k :: 0 <= k < |parts| ==> sep !in parts[k]
    ensures Split(Join(parts, sep), sep) == parts
    decreases |parts|, |parts[0]|
  {
    var p := parts[0];
    if p == [] {
      if |parts| > 1 {
        assert Join(parts, sep) == [sep] + Join(parts[1..], sep);
        assert Join(parts, sep)[1..] == Join(parts[1..], sep);
        SplitJoin(parts[1..], sep);
      }
    } else {
      var shorter := [p[1..]] + parts[1..];
      assert shorter[1..] == parts[1..];
      assert p == [p[0]] + p[1..];
      assert parts == [[p[0]] + shorter[0]] + shorter[1..];
      JoinCons(shorter, sep);
      assert Join(parts, sep) == [p[0]] + Join(shorter, sep);
      assert Join(parts, sep)[1..] == Join(shorter, sep);
      assert sep !in shorter[0];
      SplitJoin(shorter, sep);
    }
  }

  /** What `parseHeaders` returns: `requestId` is absent when the value has no '/'. */
  datatype Correlation = Correlation(secureSessionId: string, requestId: Option<string>)

  /** `H.parseHeaders`. Missing headers, or a missing or empty correlation header, give
      nothing; otherwise the first two '/'-separated pieces of the value. */
  function ParseHeaders(headers: Option<map<string, string>>): (r: Option<Correlation>)
    ensures r.None? <==>
              headers.None? || HighlightRequestHeader !in headers.value ||
              headers.value[HighlightRequestHeader] == ""
    ensures r.Some? ==> Separator !in r.value.secureSessionId
    ensures r.Some? ==>
              var v := headers.value[HighlightRequestHeader];
              (r.value.requestId.None? <==> Separator !in v) &&
              (r.value.requestId.None? ==> r.value.secureSessionId == v)
  {
    if headers.Some? && HighlightRequestHeader in headers.value &&
       headers.value[HighlightRequestHeader] != "" then
      var parts := Split(headers.value[HighlightRequestHeader], Separator);
      SplitFindsSeparator(headers.value[HighlightRequestHeader], Separator);
      Some(Correlation(parts[0], if |parts| > 1 then Some(parts[1]) else None))
    else
      None
  }

  /** A string splits into more than one piece exactly when it holds the separator. */
  lemma SplitFindsSeparator(s: string, sep: char)
    ensures |Split(s, sep)| > 1 <==> sep in s
    ensures |Split(s, sep)| == 1 ==> Split(s, sep)[0] == s
  {
  }

  /** `"s/r"` parses to `s` and `r` when neither holds a '/'. */
  lemma {:induction false} ParseRoundTrip(sessionId: string, requestId: string)
    requires Separator !in sessionId && Separator !in requestId
    ensures ParseHeaders(Some(map[HighlightRequestHeader := sessionId + [Separator] + requestId])) ==
            Some(Correlation(sessionId, Some(requestId)))
  {
    var v := sessionId + [Separator] + requestId;
    assert v != "" by { assert v[|sessionId|] == Separator; }
    assert Join([sessionId, requestId], Separator) == v;
    SplitJoin([sessionId, requestId], Separator);
  }

  /** With more than one '/', the pieces after the second are dropped. */
  lemma {:induction false} ParseKeepsTwoPieces(sessionId: string, requestId: string, rest: string)
    requires Separator !in sessionId && Separator !in requestId
    ensures ParseHeaders(Some(map[HighlightRequestHeader := sessionId + [Separator] + requestId + [Separator] + rest])) ==
            Some(Correlation(sessionId, Some(requestId)))
  {
    var v := sessionId + [Separator] + requestId + [Separator] + rest;
    assert v != "" by { assert v[|sessionId|] == Separator; }
    var tail := Split(rest, Separator);
    var parts := [sessionId, requestId] + tail;
    assert parts[2..] == tail;
    assert Join(parts[1..], Separator) == requestId + [Separator] + Join(tail, Separator) by {
      assert parts[1..][1..] == tail;
    }
    assert Join(parts, Separator) == v;
    assert forall k :: 0 <= k < |parts| ==> Separator !in parts[k] by {
      forall k | 2 <= k < |parts| ensures Separator !in parts[k] {
        assert parts[k] == tail[k - 2];
      }
    }
    SplitJoin(parts, Separator);
  }

  /** A value without '/' is accepted whole, with no request id. */
  lemma ParseWithoutSeparator(v: string)
    requires v != "" && Separator !in v
    ensures ParseHeaders(Some(map[HighlightRequestHeader := v])) == Some(Correlation(v, None))
  {
  }

  /** Only the exact header name is read: a value under any other name is ignored. */
  lemma OnlyTheHighlightHeader(name: string, v: string)
    requires name != HighlightRequestHeader
    ensures ParseHeaders(Some(map[name := v])) == None
    ensures HighlightRequestHeader == "x-highlight-request"
  {
  }
}
