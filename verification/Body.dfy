/**
  The text handling of a POST body: the inbound XML is wrapped in a synthetic
  `<root>` element, and after conversion to JSON the synthetic outer key is cut
  off by slicing the text: everything after the first `:` is kept and its last
  character dropped.
 */
module Body {
  import opened Wrappers

  const OpenTag: string := "<root>"
  const CloseTag: string := "</root>"

  /** Wraps a body, which may be a bare fragment or several siblings, into one `root` element. */
  function Wrap(body: string): (r: string)
    ensures |r| == |OpenTag| + |body| + |CloseTag|
    ensures r[..|OpenTag|] == OpenTag
    ensures r[|r| - |CloseTag|..] == CloseTag
    ensures r[|OpenTag|..|r| - |CloseTag|] == body
  {
    OpenTag + body + CloseTag
  }

  /** The body a wrapped text was made from, if it is a wrapped text at all. */
  function Unwrap(s: string): Option<string>
  {
    if |s| >= |OpenTag| + |CloseTag| && s[..|OpenTag|] == OpenTag && s[|s| - |CloseTag|..] == CloseTag
    then Some(s[|OpenTag|..|s| - |CloseTag|])
    else None
  }

  /** Unwrapping recovers the original body unchanged. */
  lemma UnwrapWrap(body: string)
    ensures Unwrap(Wrap(body)) == Some(body)
  {
  }

  /** Every text that unwraps is the wrapping of what it unwraps to. */
  lemma WrapUnwrap(s: string)
    requires Unwrap(s).Some?
    ensures Wrap(Unwrap(s).value) == s
  {
  }

  /** Distinct bodies give distinct wrapped texts. */
  lemma WrapInjective(a: string, b: string)
    requires Wrap(a) == Wrap(b)
    ensures a == b
  {
  }

  /** The position of the first `c` in `s`, or -1 when there is none (an ordinal `IndexOf`). */
  function IndexOf(s: string, c: char): (i: int)
    ensures -1 <= i < |s|
    ensures i == -1 <==> c !in s
    ensures 0 <= i ==> s[i] == c && forall k :: 0 <= k < i ==> s[k] != c
    decreases |s|
  {
    if |s| == 0 then -1
    else if s[0] == c then 0
    else
      var j := IndexOf(s[1..], c);
      if j == -1 then -1 else j + 1
  }

  /** The exception the string slicing can raise: an index outside the string. */
  datatype Fault = StartIndexOutOfRange(startIndex: int)

  /** `s.Substring(start)`: the suffix from `start`, or the out-of-range exception. */
  function Substring(s: string, start: int): (r: Result<string, Fault>)
    ensures r.Success? <==> 0 <= start <= |s|
    ensures r.Success? ==> |r.value| == |s| - start && s == s[..start] + r.value
    ensures r.Failure? ==> r.error == StartIndexOutOfRange(start)
  {
    if 0 <= start <= |s| then Success(s[start..]) else Failure(StartIndexOutOfRange(start))
  }

  /**
    `s.Remove(start)`: the prefix before `start`, or the out-of-range exception.
    `start` must name a position inside the string, so `start == |s|` raises too.
   */
  function Remove(s: string, start: int): (r: Result<string, Fault>)
    ensures r.Success? <==> 0 <= start < |s|
    ensures r.Success? ==> |r.value| == start && s == r.value + s[start..]
    ensures r.Failure? ==> r.error == StartIndexOutOfRange(start)
  {
    if 0 <= start < |s| then Success(s[..start]) else Failure(StartIndexOutOfRange(start))
  }

  /**
    Removes the outer key of serialised JSON: the text after the first `:`,
    without its last character. With `i` the index of the first `:` (or -1),
    the strip succeeds exactly when some text follows position `i`, and then
    yields `json[i+1..|json|-1]`, `|json| - i - 2` characters long; otherwise
    `Remove(-1)` raises.
   */
  function Strip(json: string): (r: Result<string, Fault>)
    ensures var i := IndexOf(json, ':');
      && (r.Success? <==> i + 1 < |json|)
      && (r.Success? ==> r.value == json[i + 1..|json| - 1] && |r.value| == |json| - i - 2)
      && (r.Failure? ==> r.error == StartIndexOutOfRange(-1))
  {
    var i := IndexOf(json, ':');
    match Substring(json, i + 1)
    case Failure(e) => Failure(e)
    case Success(rest) =>
      assert rest == json[i + 1..];
      Remove(rest, |rest| - 1)
  }

  /** Without a colon, `IndexOf` gives -1 and only the last character is dropped. */
  lemma StripWithoutColon(json: string)
    requires ':' !in json
    ensures |json| > 0 ==> Strip(json) == Success(json[..|json| - 1])
    ensures |json| == 0 ==> Strip(json) == Failure(StartIndexOutOfRange(-1))
  {
  }

  /** The strip fails exactly on the empty text and on a text whose first colon is its last character. */
  lemma StripFailsIff(json: string)
    ensures Strip(json).Failure? <==> json == [] || (':' in json && IndexOf(json, ':') == |json| - 1)
  {
  }

  /** A one-key JSON object as the serialiser writes it: `{"key":value}`. */
  function Envelope(key: string, value: string): string
  {
    "{\"" + key + "\":" + value + "}"
  }

  /** A colon at `n` with none before it is the first colon. */
  lemma FirstColonAt(s: string, n: nat)
    requires n < |s| && s[n] == ':'
    requires forall k :: 0 <= k < n ==> s[k] != ':'
    ensures IndexOf(s, ':') == n
  {
  }

  /** When the first colon is followed by `value` and one closing brace, the strip yields `value`. */
  lemma StripAfterColon(s: string, n: nat, value: string)
    requires n < |s| && IndexOf(s, ':') == n
    requires s[n + 1..] == value + "}"
    ensures Strip(s) == Success(value)
  {
    assert |s| == n + 1 + |value| + 1;
    assert s[n + 1..|s| - 1] == (value + "}")[..|value|] == value;
  }

  /** The strip inverts the envelope for any key without a colon, whatever the value holds. */
  lemma StripEnvelope(key: string, value: string)
    requires ':' !in key
    ensures Strip(Envelope(key, value)) == Success(value)
  {
    var s := Envelope(key, value);
    var n := |key| + 3;
    assert s == ("{\"" + key + "\"") + (":" + value + "}");
    assert s[..n] == "{\"" + key + "\"";
    assert forall k :: 0 <= k < n ==> s[k] == s[..n][k];
    FirstColonAt(s, n);
    StripAfterColon(s, n, value);
  }

  /** In particular the synthetic `root` key is removed exactly. */
  lemma StripRootEnvelope(value: string)
    ensures Strip(Envelope("root", value)) == Success(value)
  {
    StripEnvelope("root", value);
  }
}
