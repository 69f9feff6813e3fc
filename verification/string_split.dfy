/** SplitStrToVector and SplitStrToMap, with the out_of_range that substr throws. */
module StringSplit {
  import opened Interest

  datatype Outcome<+T> = Done(value: T) | Threw

  function FindFirstOf(s: string, chars: string): (r: Option<nat>)
    ensures r.Some? ==> r.value < |s| && s[r.value] in chars && forall i :: 0 <= i < r.value ==> s[i] !in chars
    ensures r.None? ==> forall i :: 0 <= i < |s| ==> s[i] !in chars
  {
    if s == "" then None
    else if s[0] in chars then Some(0)
    else
      var r := FindFirstOf(s[1..], chars);
      assert forall i :: 0 < i < |s| ==> s[i] == s[1..][i - 1];
      if r.Some? then Some(r.value + 1) else None
  }

  /** The pieces the loop pushes. Any character of sep ends a piece, but |sep| characters are skipped. */
  function Pieces(tmp: string, sep: string): Outcome<seq<string>>
    requires sep != ""
    decreases |tmp|
  {
    var i := FindFirstOf(tmp, sep);
    if i.None? then Done([])
    else if i.value + |sep| > |tmp| then Threw
    else
      var rest := Pieces(tmp[i.value + |sep|..], sep);
      if rest.Threw? || i.value == 0 then rest else Done([tmp[..i.value]] + rest.value)
  }

  predicate EndsWith(s: string, end: string) {
    |end| <= |s| && s[|s| - |end|..] == end
  }

  /** A string shorter than the separator makes the first substr throw. */
  function SplitVector(str: string, sep: string): Outcome<seq<string>> {
    if str == "" || sep == "" then Done([])
    else if |str| < |sep| then Threw
    else Pieces(if EndsWith(str, sep) then str else str + sep, sep)
  }

  /** std::string from c_str(). */
  function CStr(s: string): string {
    if s == "" || s[0] == '\0' then "" else [s[0]] + CStr(s[1..])
  }

  function PutPiece(m: map<string, string>, x: string, joiner: string): Outcome<map<string, string>> {
    var j := FindFirstOf(x, joiner);
    if j.None? || j.value == 0 then Done(m)
    else if j.value + |joiner| > |x| then Threw
    else Done(m[CStr(x[..j.value]) := x[j.value + |joiner|..]])
  }

  function PutPieces(m: map<string, string>, xs: seq<string>, joiner: string): Outcome<map<string, string>>
    decreases |xs|
  {
    if xs == [] then Done(m)
    else
      var first := PutPiece(m, xs[0], joiner);
      if first.Threw? then Threw else PutPieces(first.value, xs[1..], joiner)
  }

  function SplitMap(m: map<string, string>, str: string, sep: string, joiner: string): Outcome<map<string, string>> {
    if str == "" || sep == "" || joiner == "" then Done(m)
    else
      var xs := SplitVector(str, sep);
      if xs.Threw? then Threw else PutPieces(m, xs.value, joiner)
  }

  /** The loop, on every input: it ends, and pushes the pieces in order. */
  method SplitStrToVector(str: string, sep: string) returns (res: seq<string>, threw: bool)
    ensures SplitVector(str, sep) == if threw then Threw else Done(res)
  {
    res, threw := [], false;
    if str == "" || sep == "" {
      return;
    }
    var tmp := str;
    if |tmp| < |sep| {
      return [], true;
    }
    if tmp[|tmp| - |sep|..] != sep {
      tmp := tmp + sep;
    }
    assert SplitVector(str, sep) == Pieces(tmp, sep);
    hide SplitVector, FindFirstOf;
    res, threw := PushPieces(tmp, sep);
  }

  function Prepend(res: seq<string>, rest: Outcome<seq<string>>): Outcome<seq<string>> {
    if rest.Threw? then Threw else Done(res + rest.value)
  }

  lemma PrependTwice(res: seq<string>, x: string, rest: Outcome<seq<string>>)
    ensures Prepend(res, Prepend([x], rest)) == Prepend(res + [x], rest)
  {
    if rest.Done? { assert res + ([x] + rest.value) == res + [x] + rest.value; }
  }

  method PushPieces(str: string, sep: string) returns (res: seq<string>, threw: bool)
    requires sep != ""
    ensures Pieces(str, sep) == if threw then Threw else Done(res)
  {
    res, threw := [], false;
    var tmp := str;
    assert forall v: seq<string> :: [] + v == v;
    while true
      invariant Pieces(str, sep) == Prepend(res, Pieces(tmp, sep))
      decreases |tmp|
    {
      var i := FindFirstOf(tmp, sep);
      if i.None? {
        assert res + [] == res;
        return;
      }
      var l := |tmp|;
      var x := tmp[..i.value];
      if i.value + |sep| > l {
        return res, true;
      }
      ghost var rest := Pieces(tmp[i.value + |sep|..], sep);
      assert Pieces(tmp, sep) == if x == "" then rest else Prepend([x], rest);
      hide Pieces, FindFirstOf;
      PrependTwice(res, x, rest);
      tmp := tmp[i.value + |sep|..];
      if x != "" {
        res := res + [x];
      }
    }
  }

  method SplitStrToMap(m: map<string, string>, str: string, sep: string, joiner: string)
    returns (res: map<string, string>, threw: bool)
    ensures SplitMap(m, str, sep, joiner) == if threw then Threw else Done(res)
  {
    res, threw := m, false;
    if str == "" || sep == "" || joiner == "" {
      return;
    }
    var xs, failed := SplitStrToVector(str, sep);
    if failed {
      return m, true;
    }
    assert xs[0..] == xs;
    var k := 0;
    while k < |xs|
      invariant 0 <= k <= |xs|
      invariant PutPieces(m, xs, joiner) == PutPieces(res, xs[k..], joiner)
    {
      var x := xs[k];
      assert xs[k..][0] == x && xs[k..][1..] == xs[k + 1..];
      if x != "" {
        var j := FindFirstOf(x, joiner);
        if j.Some? && j.value != 0 {
          if j.value + |joiner| > |x| {
            return res, true;
          }
          res := res[CStr(x[..j.value]) := x[j.value + |joiner|..]];
        }
      }
      k := k + 1;
    }
  }

  // --- Splitting what was joined ---

  predicate Clean(part: string, sep: string) {
    forall i :: 0 <= i < |part| ==> part[i] !in sep
  }

  predicate AllClean(parts: seq<string>, sep: string) {
    forall i :: 0 <= i < |parts| ==> Clean(parts[i], sep)
  }

  /** Each part followed by the separator. */
  function Terminated(parts: seq<string>, sep: string): string {
    if parts == [] then "" else parts[0] + sep + Terminated(parts[1..], sep)
  }

  /** The separator between the parts. */
  function Joined(parts: seq<string>, sep: string): string {
    if parts == [] then "" else Terminated(parts[..|parts| - 1], sep) + parts[|parts| - 1]
  }

  function NonEmpty(parts: seq<string>): seq<string> {
    if parts == [] then [] else (if parts[0] == "" then [] else [parts[0]]) + NonEmpty(parts[1..])
  }

  lemma PiecesStep(part: string, sep: string, rest: string)
    requires sep != "" && Clean(part, sep)
    ensures
      Pieces(part + sep + rest, sep) ==
      if Pieces(rest, sep).Threw? || part == "" then Pieces(rest, sep) else Done([part] + Pieces(rest, sep).value)
  {
    var tmp := part + sep + rest;
    assert tmp[|part|] == sep[0] && sep[0] in sep;
    assert forall i :: 0 <= i < |part| ==> tmp[i] == part[i];
    assert FindFirstOf(tmp, sep) == Some(|part|);
    assert tmp[|part| + |sep|..] == rest && tmp[..|part|] == part;
  }

  lemma {:induction false} PiecesOfTerminated(parts: seq<string>, sep: string)
    requires sep != "" && AllClean(parts, sep)
    ensures Pieces(Terminated(parts, sep), sep) == Done(NonEmpty(parts))
  {
    if parts != [] {
      PiecesOfTerminated(parts[1..], sep);
      hide Pieces, FindFirstOf, Clean;
      PiecesStep(parts[0], sep, Terminated(parts[1..], sep));
      assert [] + NonEmpty(parts[1..]) == NonEmpty(parts[1..]);
    }
  }

  lemma {:induction false} NonEmptyDropsLast(parts: seq<string>)
    requires parts != [] && parts[|parts| - 1] == ""
    ensures NonEmpty(parts[..|parts| - 1]) == NonEmpty(parts)
  {
    if |parts| == 1 {
      assert NonEmpty(parts[1..]) == [];
    } else {
      NonEmptyDropsLast(parts[1..]);
      assert parts[..|parts| - 1][1..] == parts[1..][..|parts[1..]| - 1];
    }
  }

  lemma {:induction false} TerminatedSnoc(parts: seq<string>, sep: string)
    requires parts != []
    ensures Terminated(parts, sep) == Joined(parts, sep) + sep
  {
    hide Joined, Terminated;
    if |parts| == 1 {
      JoinedOne(parts, sep);
    } else {
      TerminatedSnoc(parts[1..], sep);
      JoinedStep(parts, sep);
      assert parts[0] + sep + (Joined(parts[1..], sep) + sep) == parts[0] + sep + Joined(parts[1..], sep) + sep;
    }
  }

  lemma JoinedOne(parts: seq<string>, sep: string)
    requires |parts| == 1
    ensures Terminated(parts, sep) == Joined(parts, sep) + sep
  {
    assert Terminated(parts[1..], sep) == "" && Terminated(parts[..0], sep) == "";
  }

  lemma JoinedStep(parts: seq<string>, sep: string)
    requires |parts| > 1
    ensures Terminated(parts, sep) == parts[0] + sep + Terminated(parts[1..], sep)
    ensures Joined(parts, sep) == parts[0] + sep + Joined(parts[1..], sep)
  {
    hide Joined, Terminated;
    var n := |parts| - 1;
    var head, last := Terminated(parts[1..][..n - 1], sep), parts[n];
    assert parts[..n][0] == parts[0] && parts[..n][1..] == parts[1..][..n - 1] && parts[1..][n - 1] == last;
    TerminatedStep(parts, sep);
    TerminatedStep(parts[..n], sep);
    JoinedIs(parts, sep);
    JoinedIs(parts[1..], sep);
    assert parts[0] + sep + head + last == parts[0] + sep + (head + last);
  }

  lemma TerminatedStep(parts: seq<string>, sep: string)
    requires parts != []
    ensures Terminated(parts, sep) == parts[0] + sep + Terminated(parts[1..], sep)
  {
  }

  lemma JoinedIs(parts: seq<string>, sep: string)
    requires parts != []
    ensures Joined(parts, sep) == Terminated(parts[..|parts| - 1], sep) + parts[|parts| - 1]
  {
  }

  /** The split of a join is its non-empty parts, in order, unless the join is shorter than the separator:
      then, and only then, it throws. */
  lemma SplitOfJoined(parts: seq<string>, sep: string)
    requires sep != "" && AllClean(parts, sep)
    ensures
      var str := Joined(parts, sep);
      SplitVector(str, sep) == if 0 < |str| < |sep| then Threw else Done(NonEmpty(parts))
  {
    hide Pieces, NonEmpty, Terminated;
    var str := Joined(parts, sep);
    if parts != [] {
      var n := |parts| - 1;
      TerminatedSnoc(parts, sep);
      PiecesOfTerminated(parts, sep);
      if EndsWith(str, sep) && str != "" {
        EndsInEmptyPart(parts, sep);
        NonEmptyDropsLast(parts);
        PiecesOfTerminated(parts[..n], sep);
        assert Terminated(parts[..n], sep) + "" == Terminated(parts[..n], sep);
      } else if str == "" {
        NoNonEmpty(parts, sep);
      }
    } else {
      NoNonEmpty(parts, sep);
    }
  }

  /** A join that ends with its separator has an empty last part. */
  lemma EndsInEmptyPart(parts: seq<string>, sep: string)
    requires sep != "" && AllClean(parts, sep) && parts != []
    requires EndsWith(Joined(parts, sep), sep)
    ensures parts[|parts| - 1] == ""
  {
    hide Terminated;
    var str, last := Joined(parts, sep), parts[|parts| - 1];
    var c := sep[|sep| - 1];
    assert c in sep;
    assert str[|str| - 1] == str[|str| - |sep|..][|sep| - 1] == c;
  }

  lemma JoinOfTwo(parts: seq<string>, sep: string)
    requires sep != "" && |parts| > 1
    ensures Joined(parts, sep) != ""
  {
    assert parts[..|parts| - 1] != [];
  }

  lemma {:induction false} NoNonEmpty(parts: seq<string>, sep: string)
    requires sep != "" && Joined(parts, sep) == ""
    ensures NonEmpty(parts) == []
  {
    if |parts| > 1 {
      JoinOfTwo(parts, sep);
    } else if |parts| == 1 {
      assert NonEmpty(parts[1..]) == [];
    }
  }

  /** The split of a join with a separator at the end too. */
  lemma SplitOfTerminated(parts: seq<string>, sep: string)
    requires sep != "" && AllClean(parts, sep)
    ensures SplitVector(Terminated(parts, sep), sep) == Done(NonEmpty(parts))
  {
    PiecesOfTerminated(parts, sep);
    if parts != [] { TerminatedSnoc(parts, sep); }
  }

  lemma {:induction false} SingleNeverThrows(tmp: string, sep: string)
    requires |sep| == 1
    ensures Pieces(tmp, sep).Done?
    decreases |tmp|
  {
    var i := FindFirstOf(tmp, sep);
    if i.Some? { SingleNeverThrows(tmp[i.value + 1..], sep); }
  }

  /** How many of the separator's characters str ends in. */
  function TrailingRun(str: string, sep: string): (n: nat)
    ensures n <= |str|
  {
    if str == "" || str[|str| - 1] !in sep then 0 else 1 + TrailingRun(str[..|str| - 1], sep)
  }

  predicate OnlyOf(s: string, sep: string) {
    forall i :: 0 <= i < |s| ==> s[i] in sep
  }

  lemma {:induction false} RunOfConcat(a: string, b: string, sep: string)
    ensures
      TrailingRun(a + b, sep) == if OnlyOf(b, sep) then |b| + TrailingRun(a, sep) else TrailingRun(b, sep)
    decreases |b|
  {
    if b == "" {
      assert a + b == a;
    } else {
      var n := |b| - 1;
      assert (a + b)[..|a + b| - 1] == a + b[..n];
      RunOfConcat(a, b[..n], sep);
      assert OnlyOf(b, sep) <==> OnlyOf(b[..n], sep) && b[n] in sep;
    }
  }

  lemma {:induction false} RunOfClean(s: string, sep: string)
    requires Clean(s, sep)
    ensures TrailingRun(s, sep) == 0
  {
  }

  /** Two characters that the loop takes at a separator leave the parity of the last run alone. */
  lemma RunAfterPair(head: string, two: string, rest: string, sep: string)
    requires Clean(head, sep) && |two| == 2 && two[0] in sep
    ensures TrailingRun(head + two + rest, sep) % 2 == TrailingRun(rest, sep) % 2
  {
    RunOfClean(head, sep);
    RunOfConcat(head + two, rest, sep);
    RunOfConcat(head, two, sep);
    RunOfPair(two, sep);
    RunOfConcat("", rest, sep);
    assert "" + rest == rest;
    hide TrailingRun, OnlyOf, Clean;
    assert TrailingRun("", sep) == 0 by { RunOfClean("", sep); }
  }

  lemma RunOfOne(head: string, c: char, sep: string)
    requires Clean(head, sep) && c in sep
    ensures TrailingRun(head + [c], sep) == 1
  {
    RunOfClean(head, sep);
    assert (head + [c])[..|head|] == head;
  }

  lemma PiecesUnfold(tmp: string, sep: string)
    requires sep != ""
    ensures
      var i := FindFirstOf(tmp, sep);
      Pieces(tmp, sep).Threw? <==>
      i.Some? && (i.value + |sep| > |tmp| || Pieces(tmp[i.value + |sep|..], sep).Threw?)
  {
    hide FindFirstOf;
  }

  /** The loop takes the characters of a run two at a time, so it runs off the end exactly when the last run
      is odd. */
  lemma {:induction false} PiecesThrowIff(tmp: string, sep: string)
    requires |sep| == 2
    ensures Pieces(tmp, sep).Threw? <==> TrailingRun(tmp, sep) % 2 == 1
    decreases |tmp|
  {
    PiecesUnfold(tmp, sep);
    var r := FindFirstOf(tmp, sep);
    hide Pieces, TrailingRun, FindFirstOf;
    if r.None? {
      RunOfClean(tmp, sep);
    } else {
      var i := r.value;
      if i + 2 > |tmp| {
        assert tmp == tmp[..i] + [tmp[i]];
        RunOfOne(tmp[..i], tmp[i], sep);
      } else {
        assert tmp == tmp[..i] + tmp[i..i + 2] + tmp[i + 2..];
        RunAfterPair(tmp[..i], tmp[i..i + 2], tmp[i + 2..], sep);
        PiecesThrowIff(tmp[i + 2..], sep);
      }
    }
  }

  lemma RunOfPair(two: string, sep: string)
    requires |two| == 2 && two[0] in sep
    ensures TrailingRun(two, sep) == if two[1] in sep then 2 else 0
    ensures OnlyOf(two, sep) <==> two[1] in sep
  {
    assert two[..1][0] == two[0] && two[..1][..0] == "";
  }

  /** Splitting at a separator of two characters, such as CRLF, throws exactly for a single character and for
      a string that ends in an odd number of the separator's characters. */
  lemma PairThrowsIff(str: string, sep: string)
    requires |sep| == 2
    ensures SplitVector(str, sep).Threw? <==> |str| == 1 || TrailingRun(str, sep) % 2 == 1
  {
    RunOfClean("", sep);
    RunOfSeparator(str, sep);
    hide Pieces, TrailingRun, EndsWith;
    PiecesThrowIff(if EndsWith(str, sep) then str else str + sep, sep);
  }

  lemma RunOfSeparator(str: string, sep: string)
    requires |sep| == 2
    ensures TrailingRun(str + sep, sep) % 2 == TrailingRun(str, sep) % 2
  {
    RunOfConcat(str, sep, sep);
    assert OnlyOf(sep, sep);
    hide TrailingRun, OnlyOf;
  }

  /** So a lone line feed at the end of a header block throws. */
  lemma LoneLineFeedThrows(line: string)
    requires Clean(line, "\r\n") && line != ""
    ensures SplitVector(line + "\n", "\r\n") == Threw
  {
    var str := line + "\n";
    assert "\r\n"[1] == '\n' && '\n' in "\r\n";
    assert str[|str| - 1] == '\n' && str[..|str| - 1] == line;
    RunOfClean(line, "\r\n");
    assert TrailingRun(str, "\r\n") == 1;
    hide TrailingRun, SplitVector, Clean;
    PairThrowsIff(str, "\r\n");
  }

  /** With a joiner of one character no piece throws. */
  lemma {:induction false} SinglePutNeverThrows(m: map<string, string>, xs: seq<string>, joiner: string)
    requires |joiner| == 1
    ensures PutPieces(m, xs, joiner).Done?
    decreases |xs|
  {
    if xs != [] {
      assert PutPiece(m, xs[0], joiner).Done?;
      SinglePutNeverThrows(PutPiece(m, xs[0], joiner).value, xs[1..], joiner);
    }
  }
}
