/** Key-value lines: what SplitStrToMap makes of them. */
module KeyValues {
  import opened Interest
  import opened StringSplit

  type Headers = map<string, string>

  /** The order in which std::map visits m's keys; the results below hold whatever it is. */
  ghost predicate Enumerates(order: seq<string>, m: Headers) {
    Distinct(order) && forall k :: k in order <==> k in m
  }

  function Line(m: Headers, k: string, joiner: string): string
    requires k in m
  {
    k + joiner + m[k]
  }

  function Lines(m: Headers, order: seq<string>, joiner: string): seq<string>
    requires forall k :: k in order ==> k in m
  {
    if order == [] then [] else [Line(m, order[0], joiner)] + Lines(m, order[1..], joiner)
  }

  /** Keys that are not empty and hold no separator, joiner or NUL; values that hold no separator. */
  predicate GoodPairs(m: Headers, sep: string, joiner: string) {
    && |joiner| == 1 && Clean(joiner, sep) && sep != ""
    && forall k | k in m :: k != "" && Clean(k, joiner) && Clean(k, sep) && Clean(k, "\0") && Clean(m[k], sep)
  }

  lemma {:induction false} CStrWhole(s: string)
    requires Clean(s, "\0")
    ensures CStr(s) == s
  {
    if s != "" {
      assert s[0] !in "\0" && "\0"[0] == '\0';
      forall i | 0 <= i < |s[1..]| ensures s[1..][i] !in "\0" { assert s[1..][i] == s[i + 1]; }
      CStrWhole(s[1..]);
    }
  }

  lemma PutLine(acc: Headers, m: Headers, k: string, joiner: string)
    requires k in m && k != "" && |joiner| == 1 && Clean(k, joiner) && Clean(k, "\0")
    ensures PutPiece(acc, Line(m, k, joiner), joiner) == Done(acc[k := m[k]])
  {
    var x := Line(m, k, joiner);
    assert x[|k|] == joiner[0] && forall i :: 0 <= i < |k| ==> x[i] == k[i];
    assert FindFirstOf(x, joiner) == Some(|k|);
    assert x[..|k|] == k && x[|k| + 1..] == m[k];
    CStrWhole(k);
  }

  lemma {:induction false} CStrCuts(text: string, more: string)
    requires Clean(text, "\0")
    ensures CStr(text + "\0" + more) == text
  {
    var s := text + "\0" + more;
    if text != "" {
      assert '\0' in "\0" && s[0] == text[0] && s[1..] == text[1..] + "\0" + more;
      forall i | 0 <= i < |text[1..]| ensures text[1..][i] !in "\0" { assert text[1..][i] == text[i + 1]; }
      CStrCuts(text[1..], more);
    }
  }

  /** A piece without the joiner, or with nothing before it, is skipped; a key is cut at its first NUL. */
  lemma OddPieces(acc: Headers, key: string, more: string, joiner: string, value: string)
    requires |joiner| == 1
    ensures Clean(value, joiner) ==> PutPiece(acc, value, joiner) == Done(acc)
    ensures PutPiece(acc, joiner + value, joiner) == Done(acc)
    ensures Clean(key, "\0") && key != "" && Clean(key, joiner) && Clean(more, joiner) && Clean("\0", joiner) ==>
      PutPiece(acc, key + "\0" + more + joiner + value, joiner) == Done(acc[key := value])
  {
    assert (joiner + value)[0] == joiner[0];
    if Clean(key, "\0") && key != "" && Clean(key, joiner) && Clean(more, joiner) && Clean("\0", joiner) {
      var k := key + "\0" + more;
      var x := k + joiner + value;
      assert "\0"[0] !in joiner;
      assert forall i :: 0 <= i < |k| ==> x[i] == k[i] && k[i] !in joiner;
      assert x[|k|] == joiner[0];
      assert x[..|k|] == k && x[|k| + 1..] == value;
      CStrCuts(key, more);
      hide CStr;
      assert FindFirstOf(x, joiner) == Some(|k|);
    }
  }

  lemma LineClean(m: Headers, k: string, sep: string, joiner: string)
    requires GoodPairs(m, sep, joiner) && k in m
    ensures Clean(Line(m, k, joiner), sep)
  {
    var x := Line(m, k, joiner);
    assert forall i :: 0 <= i < |x| ==>
      x[i] == if i < |k| then k[i] else if i == |k| then joiner[0] else m[k][i - |k| - 1];
  }

  lemma {:induction false} LinesClean(m: Headers, order: seq<string>, sep: string, joiner: string)
    requires GoodPairs(m, sep, joiner) && forall k :: k in order ==> k in m
    ensures
      var ls := Lines(m, order, joiner);
      AllClean(ls, sep) && NonEmpty(ls) == ls && |ls| == |order|
  {
    if order != [] {
      LinesClean(m, order[1..], sep, joiner);
      LineClean(m, order[0], sep, joiner);
      var ls := Lines(m, order, joiner);
      hide Clean;
      assert forall i :: 0 < i < |ls| ==> ls[i] == Lines(m, order[1..], joiner)[i - 1];
      assert ls[1..] == Lines(m, order[1..], joiner);
    }
  }

  ghost function Restrict(m: Headers, order: seq<string>): Headers
    requires forall k :: k in order ==> k in m
  {
    map k | k in order :: m[k]
  }

  lemma {:induction false} PutLines(acc: Headers, m: Headers, order: seq<string>, sep: string, joiner: string)
    requires GoodPairs(m, sep, joiner) && forall k :: k in order ==> k in m
    ensures PutPieces(acc, Lines(m, order, joiner), joiner) == Done(acc + Restrict(m, order))
    decreases |order|
  {
    if order == [] {
      assert acc + Restrict(m, order) == acc;
    } else {
      PutLine(acc, m, order[0], joiner);
      RestrictStep(acc, m, order);
      hide PutPiece, Line, GoodPairs, FindFirstOf;
      PutLines(acc[order[0] := m[order[0]]], m, order[1..], sep, joiner);
      assert Lines(m, order, joiner)[1..] == Lines(m, order[1..], joiner);
    }
  }

  lemma RestrictStep(acc: Headers, m: Headers, order: seq<string>)
    requires order != [] && forall k :: k in order ==> k in m
    ensures
      acc[order[0] := m[order[0]]] + Restrict(m, order[1..]) == acc + Restrict(m, order)
  {
    assert forall k :: k in order <==> k == order[0] || k in order[1..];
  }

  lemma WholeMap(m: Headers, order: seq<string>)
    requires Enumerates(order, m)
    ensures map[] + Restrict(m, order) == m
  {
  }

  /** Lines that each end with the separator are parsed back to the map they were printed from. */
  lemma TerminatedRoundTrip(m: Headers, order: seq<string>, sep: string, joiner: string)
    requires GoodPairs(m, sep, joiner) && Enumerates(order, m)
    ensures SplitMap(map[], Terminated(Lines(m, order, joiner), sep), sep, joiner) == Done(m)
  {
    var ls := Lines(m, order, joiner);
    LinesClean(m, order, sep, joiner);
    SplitOfTerminated(ls, sep);
    PutLines(map[], m, order, sep, joiner);
    WholeMap(m, order);
    hide Clean, PutPieces, SplitVector, NonEmpty, Joined, Line;
    if ls == [] { assert m == map[]; } else { TerminatedSnoc(ls, sep); }
  }

  /** So are lines with the separator only between them, when they are no shorter than it. */
  lemma JoinedRoundTrip(m: Headers, order: seq<string>, sep: string, joiner: string)
    requires GoodPairs(m, sep, joiner) && Enumerates(order, m)
    requires |Joined(Lines(m, order, joiner), sep)| >= |sep|
    ensures SplitMap(map[], Joined(Lines(m, order, joiner), sep), sep, joiner) == Done(m)
  {
    var ls := Lines(m, order, joiner);
    LinesClean(m, order, sep, joiner);
    SplitOfJoined(ls, sep);
    PutLines(map[], m, order, sep, joiner);
    WholeMap(m, order);
  }
}
