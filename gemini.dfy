/** The post-processing of the AI service's replies (services/gemini.ts): the roster lines of
    `extractStudentNamesFromImage` and the code-fence stripping of `extractGradesFromImage`.
    The service call itself is the `AiReply` it comes back with, and `JSON.parse` is the
    `parse` parameter. */
module Gemini {
  import opened Wrappers
  import opened Strings

  /** How a call to the AI service ends: no client could be built (no key), the SDK threw
      with a message, or the model replied with a text. */
  datatype AiReply = ClientUnavailable | SdkFailed(message: string) | Replied(text: string)

  /** One row of a scanned grade sheet, the shape the prompt asks the model for. */
  datatype ScannedRow = ScannedRow(name: string, note1: int, note2: int, note3: int)

  function TrimAll(lines: seq<string>): (r: seq<string>)
    ensures |r| == |lines| && forall i :: 0 <= i < |lines| ==> r[i] == Trim(lines[i])
  {
    seq(|lines|, i requires 0 <= i < |lines| => Trim(lines[i]))
  }

  /** The non-empty lines, in order. */
  function NonEmpty(lines: seq<string>): (r: seq<string>)
    ensures forall i :: 0 <= i < |r| ==> |r[i]| > 0
    ensures forall x :: x in r <==> x in lines && |x| > 0
    decreases |lines|
  {
    if |lines| == 0 then []
    else (if |lines[0]| > 0 then [lines[0]] else []) + NonEmpty(lines[1..])
  }

  /** A roster line as the teacher gets it: non-empty, no white space at either end and no
      line break inside. */
  predicate CleanName(x: string)
  {
    |x| > 0 && !IsSpace(x[0]) && !IsSpace(x[|x| - 1]) && '\n' !in x
  }

  /** `text.split('\n').map(trim).filter(non-empty)`. */
  function NameLines(text: string): seq<string>
  {
    NonEmpty(TrimAll(Split(text, '\n')))
  }

  /** Every name read from a reply is clean. */
  lemma NameLinesClean(text: string)
    ensures forall x :: x in NameLines(text) ==> CleanName(x)
  {
    var pieces := Split(text, '\n');
    var trimmed := TrimAll(pieces);
    forall i | 0 <= i < |trimmed| && |trimmed[i]| > 0
      ensures CleanName(trimmed[i])
    {
      TrimKeepsOut(pieces[i], '\n');
    }
  }

  /** Trimming never brings in a character. */
  lemma TrimKeepsOut(s: string, c: char)
    requires c !in s
    ensures c !in Trim(s)
  {
    var k := TrimSlice(s);
    forall j | 0 <= j < |Trim(s)|
      ensures Trim(s)[j] != c
    {
      assert Trim(s)[j] == s[k + j];
    }
  }

  /** A string with no white space at either end is its own trim. */
  lemma TrimIdentity(s: string)
    requires |s| > 0 ==> !IsSpace(s[0]) && !IsSpace(s[|s| - 1])
    ensures Trim(s) == s
  {
  }

  /** `extractStudentNamesFromImage` after the SDK call. */
  function ExtractStudentNames(reply: AiReply): (r: Result<seq<string>, string>)
    ensures reply.ClientUnavailable? ==> r == Err("AI Service Unavailable")
    ensures reply.SdkFailed? ==> r == Err("Failed to extract names: " + reply.message)
    ensures reply.Replied? ==> r == Ok(NameLines(reply.text))
  {
    match reply
    case ClientUnavailable => Err("AI Service Unavailable")
    case SdkFailed(m) => Err("Failed to extract names: " + m)
    case Replied(text) => Ok(NameLines(text))
  }

  /** A roster written one clean name per line is read back exactly. */
  lemma {:induction false} NamesRoundTrip(names: seq<string>)
    requires |names| >= 1
    requires forall i :: 0 <= i < |names| ==> CleanName(names[i])
    ensures NameLines(Join(names, '\n')) == names
  {
    SplitJoin(names, '\n');
    forall i | 0 <= i < |names|
      ensures Trim(names[i]) == names[i]
    {
      TrimIdentity(names[i]);
    }
    assert TrimAll(names) == names;
    NonEmptyAll(names);
  }

  lemma {:induction false} NonEmptyAll(lines: seq<string>)
    requires forall i :: 0 <= i < |lines| ==> |lines[i]| > 0
    ensures NonEmpty(lines) == lines
    decreases |lines|
  {
    if |lines| > 0 {
      NonEmptyAll(lines[1..]);
    }
  }

  /** Lines are read in order: the names of a text are those of its first line followed by
      those of the rest; a blank line contributes none. */
  lemma NamesOfLines(first: string, rest: string)
    requires '\n' !in first
    ensures NameLines(first + "\n" + rest) == (if IsBlank(first) then [] else [Trim(first)]) + NameLines(rest)
  {
    var tail := Split(rest, '\n');
    assert Split(first + "\n" + rest, '\n') == [first] + tail by {
      assert first + "\n" + rest == first + ['\n'] + rest;
      SplitAfter(first, '\n', rest);
    }
    assert TrimAll([first] + tail) == [Trim(first)] + TrimAll(tail);
    NonEmptyCons(Trim(first), TrimAll(tail));
  }

  lemma NonEmptyCons(x: string, xs: seq<string>)
    ensures NonEmpty([x] + xs) == (if |x| > 0 then [x] else []) + NonEmpty(xs)
  {
    assert ([x] + xs)[1..] == xs;
  }

  const Fence := "```"

  /** `text.replace(/```json/g, '').replace(/```/g, '').trim()`. */
  function CleanGradeText(text: string): (r: string)
  {
    Trim(ReplaceAll(ReplaceAll(text, "```json", ""), Fence, ""))
  }

  /** After the cleanup no code fence is left, whatever the reply was: removing one fence
      never joins two back-ticks into another. */
  lemma CleanHasNoFence(text: string)
    ensures !Contains(CleanGradeText(text), Fence)
  {
    var stripped := ReplaceAll(ReplaceAll(text, "```json", ""), Fence, "");
    forall j: nat
      ensures !OccursAt(stripped, Fence, j)
    {
      NoFenceAt(ReplaceAll(text, "```json", ""), j);
    }
    var k := TrimSlice(stripped);
    forall j: nat
      ensures !OccursAt(Trim(stripped), Fence, j)
    {
      SliceOccurs(stripped, k, |Trim(stripped)|, j);
    }
  }

  /** An occurrence in a slice is an occurrence in the whole. */
  lemma SliceOccurs(s: string, k: nat, n: nat, j: nat)
    requires k + n <= |s|
    ensures OccursAt(s[k..k + n], Fence, j) ==> OccursAt(s, Fence, k + j)
  {
    var p := Fence;
    if OccursAt(s[k..k + n], p, j) {
      var a, b := s[k..k + n][j..j + |p|], s[k + j..k + j + |p|];
      forall t | 0 <= t < |p|
        ensures a[t] == b[t]
      {
        assert s[k..k + n][j + t] == s[k + j + t];
      }
      assert a == b;
    }
  }

  lemma {:induction false} NoFenceAt(s: string, j: nat)
    ensures !OccursAt(ReplaceAll(s, Fence, ""), Fence, j)
    decreases |s|, 1
  {
    if |s| >= 3 {
      if s[..3] == Fence {
        NoFenceAt(s[3..], j);
      } else {
        NoFenceAfterChar(s, j);
      }
    }
  }

  /** The step of `NoFenceAt` where the scan keeps the first character. */
  lemma {:induction false} NoFenceAfterChar(s: string, j: nat)
    requires |s| >= 3 && s[..3] != Fence
    ensures !OccursAt(ReplaceAll(s, Fence, ""), Fence, j)
    decreases |s|, 0
  {
    assert s[..3] == [s[0]] + s[1..][..2];
    var t := ReplaceAll(s[1..], Fence, "");
    var u := [s[0]] + t;
    assert ReplaceAll(s, Fence, "") == u;
    if j > 0 {
      assert OccursAt(u, Fence, j) ==> u[j..j + 3] == t[j - 1..j + 2];
      NoFenceAt(s[1..], j - 1);
    } else {
      NoFenceAtHead(s, t);
    }
  }

  lemma NoFenceAtHead(s: string, t: string)
    requires |s| >= 3 && s[..3] != Fence && t == ReplaceAll(s[1..], Fence, "")
    ensures !OccursAt([s[0]] + t, Fence, 0)
  {
    var u := [s[0]] + t;
    assert s[..3] == [s[0]] + s[1..][..2];
    assert Fence == ['`'] + "``";
    assert |t| >= 2 ==> u[0..3] == [s[0]] + t[..2];
    ConsEq(s[0], if |t| >= 2 then t[..2] else t, '`', "``");
    StartsTwoTicks(s[1..]);
  }

  lemma ConsEq(a: char, x: string, b: char, y: string)
    ensures [a] + x == [b] + y ==> a == b && x == y
  {
    if [a] + x == [b] + y {
      assert ([a] + x)[0] == a && ([a] + x)[1..] == x;
    }
  }

  /** A fence-free result that starts with two back-ticks came from a text that does. */
  lemma {:induction false} StartsTwoTicks(t: string)
    ensures StartsWith(ReplaceAll(t, Fence, ""), "``") ==> StartsWith(t, "``")
    decreases |t|
  {
    if |t| >= 3 {
      if t[..3] == Fence {
        assert t[..2] == "``";
      } else {
        StartsTick(t[1..]);
      }
    }
  }

  lemma {:induction false} StartsTick(t: string)
    ensures StartsWith(ReplaceAll(t, Fence, ""), "`") ==> StartsWith(t, "`")
    decreases |t|
  {
    if |t| >= 3 && t[..3] == Fence {
      assert t[..1] == "`";
    }
  }

  /** `extractGradesFromImage` after the SDK call: the cleaned text is parsed; a failed call
      or a failed parse is reported with the extractor's prefix. */
  function ExtractGrades(reply: AiReply, parse: string -> Result<seq<ScannedRow>, string>): (r: Result<seq<ScannedRow>, string>)
    ensures reply.ClientUnavailable? ==> r == Err("AI Service Unavailable")
    ensures reply.SdkFailed? ==> r == Err("Failed to extract grades: " + reply.message)
    ensures r.Ok? ==> reply.Replied? && parse(CleanGradeText(reply.text)) == Ok(r.value)
    ensures reply.Replied? && parse(CleanGradeText(reply.text)).Ok? ==> r == parse(CleanGradeText(reply.text))
    ensures reply.Replied? && parse(CleanGradeText(reply.text)).Err? ==>
      r == Err("Failed to extract grades: " + parse(CleanGradeText(reply.text)).error)
  {
    match reply
    case ClientUnavailable => Err("AI Service Unavailable")
    case SdkFailed(m) => Err("Failed to extract grades: " + m)
    case Replied(text) =>
      match parse(CleanGradeText(text))
      case Ok(rows) => Ok(rows)
      case Err(m) => Err("Failed to extract grades: " + m)
  }

  /** A reply that is a fenced JSON block is parsed as its body: with no back-tick inside
      and no white space around it, the body is all that reaches the parser. */
  lemma FencedReply(body: string)
    requires '`' !in body
    requires |body| > 0 ==> !IsSpace(body[0]) && !IsSpace(body[|body| - 1])
    ensures CleanGradeText("```json" + body + Fence) == body
  {
    var text := "```json" + body + Fence;
    assert text[..7] == "```json" && text[7..] == body + Fence;
    assert ReplaceAll(text, "```json", "") == ReplaceAll(body + Fence, "```json", "");
    ReplaceSkips(body, Fence, "```json");
    assert ReplaceAll(Fence, "```json", "") == Fence;
    ReplaceSkips(body, Fence, Fence);
    assert ReplaceAll(Fence, Fence, "") == "";
    TrimIdentity(body);
  }

  /** A pattern that starts with a back-tick never matches inside text free of back-ticks. */
  lemma {:induction false} ReplaceSkips(body: string, tail: string, p: string)
    requires '`' !in body && |p| > 0 && p[0] == '`'
    ensures ReplaceAll(body + tail, p, "") == body + ReplaceAll(tail, p, "")
    decreases |body|
  {
    var s := body + tail;
    if |body| > 0 {
      if |s| >= |p| {
        assert s[..|p|][0] == body[0];
        assert s[1..] == body[1..] + tail;
        ReplaceSkips(body[1..], tail, p);
        assert [body[0]] + body[1..] == body;
      } else {
        assert ReplaceAll(tail, p, "") == tail;
      }
    } else {
      assert s == tail;
    }
  }
}
