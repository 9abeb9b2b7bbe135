/** The payload of a data URI as the code takes it: `src.split(",")[1]`,
    the second comma-separated field of the `src` attribute. */
module DataUri {
  import opened Wrappers

  /** The prefix the successful reply puts back in front of the payload. */
  const PngPrefix: string := "data:image/png;base64,"

  /** Python's `s.split(sep)` with an explicit one-character separator: the
      fields between separators, empty ones included; never an empty list. */
  function Split(s: string, sep: char): (parts: seq<string>)
    ensures |parts| >= 1
  {
    if |s| == 0 then [""]
    else
      var rest := Split(s[1..], sep);
      if s[0] == sep then [""] + rest
      else [[s[0]] + rest[0]] + rest[1..]
  }

  /** `sep.join(parts)`, the inverse of Split. */
  function JoinWith(parts: seq<string>, sep: char): string
    requires |parts| >= 1
  {
    if |parts| == 1 then parts[0] else parts[0] + [sep] + JoinWith(parts[1..], sep)
  }

  /** No field contains the separator. */
  lemma {:induction false} SplitFields(s: string, sep: char)
    ensures forall i :: 0 <= i < |Split(s, sep)| ==> sep !in Split(s, sep)[i]
  {
    if |s| > 0 {
      SplitFields(s[1..], sep);
    }
  }

  /** Joining the fields again with the separator gives back the input. */
  lemma {:induction false} SplitJoin(s: string, sep: char)
    ensures JoinWith(Split(s, sep), sep) == s
  {
    if |s| > 0 {
      var rest := Split(s[1..], sep);
      SplitJoin(s[1..], sep);
      if s[0] != sep && |rest| > 1 {
        assert Split(s, sep)[1..] == rest[1..];
      }
    }
  }

  /** There is one field more than there are separators. */
  lemma {:induction false} SplitCount(s: string, sep: char)
    ensures |Split(s, sep)| == multiset(s)[sep] + 1
  {
    if |s| > 0 {
      SplitCount(s[1..], sep);
      assert s == [s[0]] + s[1..];
    }
  }

  /** Splitting a separator-free field followed by a separator and more text
      yields that field first, then the fields of the rest. */
  lemma {:induction false} SplitCons(head: string, sep: char, tail: string)
    requires sep !in head
    ensures Split(head + [sep] + tail, sep) == [head] + Split(tail, sep)
  {
    if |head| == 0 {
      assert head + [sep] + tail == [sep] + tail;
      assert ([sep] + tail)[1..] == tail;
    } else {
      assert (head + [sep] + tail)[1..] == head[1..] + [sep] + tail;
      SplitCons(head[1..], sep, tail);
      assert [head[0]] + head[1..] == head;
    }
  }

  /** A separator-free text is one field. */
  lemma {:induction false} SplitNone(s: string, sep: char)
    requires sep !in s
    ensures Split(s, sep) == [s]
  {
    if |s| > 0 {
      SplitNone(s[1..], sep);
      assert [s[0]] + s[1..] == s;
    }
  }

  /** `src.split(",")[1]`, with the IndexError a `src` without a comma
      raises. */
  function Payload(src: string): Result<string, Error> {
    var parts := Split(src, ',');
    if |parts| < 2 then Failure(IndexError) else Success(parts[1])
  }

  /** The IndexError is raised exactly when `src` has no comma; otherwise
      the payload is comma-free and shorter than `src`. */
  lemma PayloadDefined(src: string)
    ensures Payload(src).Success? <==> ',' in src
    ensures Payload(src).Success? ==> ',' !in Payload(src).value && |Payload(src).value| < |src|
  {
    var parts := Split(src, ',');
    SplitCount(src, ',');
    SplitFields(src, ',');
    if |parts| >= 2 {
      SplitJoin(src, ',');
      if |parts| == 2 {
        assert src == parts[0] + [','] + parts[1];
      } else {
        assert src == parts[0] + [','] + JoinWith(parts[1..], ',');
        assert JoinWith(parts[1..], ',') == parts[1] + [','] + JoinWith(parts[2..], ',');
      }
    }
  }

  /** The payload is exactly the text between the first comma and the next
      comma, or the end of `src`. */
  lemma PayloadBetweenCommas(head: string, body: string, tail: string)
    requires ',' !in head && ',' !in body
    requires tail == [] || tail[0] == ','
    ensures Payload(head + [','] + body + tail) == Success(body)
  {
    var src := head + [','] + body + tail;
    assert src == head + [','] + (body + tail);
    SplitCons(head, ',', body + tail);
    if tail == [] {
      assert body + tail == body;
      SplitNone(body, ',');
    } else {
      assert body + tail == body + [','] + tail[1..];
      SplitCons(body, ',', tail[1..]);
    }
  }

  /** Conversely, a `src` with a comma is the comma-free first field, a
      comma, the payload, and then either nothing or another comma. */
  lemma PayloadShape(src: string)
    requires ',' in src
    ensures Payload(src).Success?
    ensures var head, p := Split(src, ',')[0], Payload(src).value;
      var n := |head| + 1 + |p|;
      && n <= |src|
      && ',' !in head
      && src[..n] == head + [','] + p
      && (n == |src| || src[n] == ',')
  {
    PayloadDefined(src);
    var parts := Split(src, ',');
    SplitJoin(src, ',');
    SplitFields(src, ',');
    var first := parts[0] + [','] + parts[1];
    if |parts| == 2 {
      assert src == first;
    } else {
      var tail := JoinWith(parts[2..], ',');
      assert JoinWith(parts[1..], ',') == parts[1] + [','] + tail;
      assert src == first + ([','] + tail);
      assert src[..|first|] == first;
    }
  }

  /** The `base64` field of the successful reply hands the same payload back
      to a client that splits it again. */
  lemma PrefixedPayloadRoundTrip(payload: string)
    requires ',' !in payload
    ensures Payload(PngPrefix + payload) == Success(payload)
  {
    var head := "data:image/png;base64";
    assert PngPrefix + payload == head + [','] + payload + [];
    PayloadBetweenCommas(head, payload, []);
  }
}
