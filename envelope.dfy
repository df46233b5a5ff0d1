/** `parseGVizResponse`: the query endpoint answers with a script of the form
    `google.visualization.Query.setResponse({...});`, and the JSON object is
    cut out of it between the first `{` and the last `}`. */
module Envelope {
  import opened Wrappers
  import opened Errors

  /** `s.indexOf(c)`: the first position of `c`, or -1 when it does not occur. */
  function IndexOf(s: string, c: char): (r: int)
    ensures -1 <= r < |s|
    ensures r == -1 <==> c !in s
    ensures r >= 0 ==> s[r] == c && c !in s[..r]
  {
    if s == [] then -1
    else if s[0] == c then 0
    else
      var k := IndexOf(s[1..], c);
      assert k >= 0 ==> s[..k + 1] == [s[0]] + s[1..][..k];
      if k == -1 then -1 else k + 1
  }

  /** `s.lastIndexOf(c)`: the last position of `c`, or -1 when it does not occur. */
  function LastIndexOf(s: string, c: char): (r: int)
    ensures -1 <= r < |s|
    ensures r == -1 <==> c !in s
    ensures r >= 0 ==> s[r] == c && c !in s[r + 1..]
  {
    if s == [] then -1
    else if s[|s| - 1] == c then |s| - 1
    else
      var init := s[..|s| - 1];
      var k := LastIndexOf(init, c);
      assert s == init + [s[|s| - 1]];
      assert k >= 0 ==> s[k + 1..] == init[k + 1..] + [s[|s| - 1]];
      k
  }

  /** `s.slice(start, end)` for indices inside the string: empty when the
      range is empty or reversed. */
  function Slice(s: string, start: nat, end: nat): (r: string)
    requires start <= |s| && end <= |s|
    ensures |r| == if start < end then end - start else 0
    ensures start < end ==> forall k :: 0 <= k < |r| ==> r[k] == s[start + k]
  {
    if start < end then s[start..end] else []
  }

  /** The text handed to `JSON.parse`, or the "Unexpected response format"
      error when the reply has no `{` or no `}`. */
  function ExtractPayload(text: string): (r: Result<string, LoadError>)
    ensures r.Failure? <==> '{' !in text || '}' !in text
    ensures r.Failure? ==> r.error == UnexpectedFormat
    ensures r.Success? && r.value != [] ==> r.value[0] == '{' && r.value[|r.value| - 1] == '}'
    ensures r.Success? ==> |r.value| <= |text|
  {
    var start := IndexOf(text, '{');
    var end := LastIndexOf(text, '}');
    if start == -1 || end == -1 then Failure(UnexpectedFormat)
    else Success(Slice(text, start, end + 1))
  }

  /** The payload is exactly the text from the first `{` through the last `}`;
      it is empty when that `}` comes before that `{`. */
  lemma PayloadIsBraceRange(text: string, i: nat, j: nat)
    requires i < |text| && text[i] == '{' && '{' !in text[..i]
    requires j < |text| && text[j] == '}' && '}' !in text[j + 1..]
    ensures ExtractPayload(text) == Success(if i <= j then text[i..j + 1] else [])
  {
  }

  /** A callback wrapper around an object literal comes off whole, provided
      the text before the object has no `{` and the text after it no `}`. */
  lemma {:induction false} UnwrapCallback(prefix: string, body: string, suffix: string)
    requires '{' !in prefix && '}' !in suffix
    ensures ExtractPayload(prefix + "{" + body + "}" + suffix) == Success("{" + body + "}")
  {
    var wrapped := "{" + body + "}";
    var text := prefix + "{" + body + "}" + suffix;
    assert text == prefix + wrapped + suffix;
    var i, j := |prefix|, |prefix| + |body| + 1;
    assert text[i] == '{' && text[..i] == prefix by {
      assert text == prefix + (wrapped + suffix);
    }
    assert text[j] == '}' && text[j + 1..] == suffix;
    assert text[i..j + 1] == wrapped;
    PayloadIsBraceRange(text, i, j);
  }
}
