/** HTTP header maps: printing, the length of what is printed, and parsing back. */
module HttpDefine {
  import opened KeyValues
  import opened StringSplit

  const CRLF := "\r\n"

  /** What toHttpString prints. */
  function Block(m: Headers, order: seq<string>): string
    requires forall k :: k in order ==> k in m
  {
    Terminated(Lines(m, order, ":"), CRLF)
  }

  class HttpHeaderComm {
    var maps: Headers

    constructor ()
      ensures maps == map[]
    {
      maps := map[];
    }

    /** operator[] puts an empty value under a key that is missing. */
    method GetValue(key: string) returns (value: string)
      modifies this
      ensures maps == if CStr(key) in old(maps) then old(maps) else old(maps)[CStr(key) := ""]
      ensures value == maps[CStr(key)]
    {
      var k := CStr(key);
      if k !in maps {
        maps := maps[k := ""];
      }
      value := maps[k];
    }

    method SetKeyValue(key: string, value: string)
      modifies this
      ensures maps == old(maps)[CStr(key) := value]
    {
      maps := maps[CStr(key) := value];
    }

    method GetHeaderTotalLength(order: seq<string>) returns (len: nat)
      requires Enumerates(order, maps)
      ensures len == |Block(maps, order)|
    {
      len := 0;
      var i := 0;
      assert order[0..] == order;
      while i < |order|
        invariant 0 <= i <= |order|
        invariant len + |Block(maps, order[i..])| == |Block(maps, order)|
      {
        assert order[i..][0] == order[i] && order[i..][1..] == order[i + 1..];
        BlockStep(maps, order[i..]);
        len := len + |order[i]| + 1 + |maps[order[i]]| + 2;
        i := i + 1;
      }
    }

    method ToHttpString(order: seq<string>) returns (ss: string)
      requires Enumerates(order, maps)
      ensures ss == Block(maps, order)
    {
      ss := "";
      var i := 0;
      assert order[0..] == order;
      while i < |order|
        invariant 0 <= i <= |order|
        invariant ss + Block(maps, order[i..]) == Block(maps, order)
      {
        assert order[i..][0] == order[i] && order[i..][1..] == order[i + 1..];
        BlockStep(maps, order[i..]);
        ghost var rest := Block(maps, order[i + 1..]);
        hide Block;
        var line := order[i] + ":" + maps[order[i]] + "\r\n";
        assert ss + (line + rest) == ss + line + rest;
        ss := ss + line;
        i := i + 1;
      }
      assert ss + "" == ss;
    }
  }

  lemma BlockStep(m: Headers, order: seq<string>)
    requires order != [] && forall k :: k in order ==> k in m
    ensures Block(m, order) == order[0] + ":" + m[order[0]] + "\r\n" + Block(m, order[1..])
  {
    assert Lines(m, order, ":")[1..] == Lines(m, order[1..], ":");
  }

  predicate GoodHeaders(m: Headers) {
    GoodPairs(m, CRLF, ":")
  }

  /** Printing a header map and splitting what was printed gives the map back. */
  lemma HeaderRoundTrip(m: Headers, order: seq<string>)
    requires GoodHeaders(m) && Enumerates(order, m)
    ensures SplitMap(map[], Block(m, order), CRLF, ":") == Done(m)
  {
    TerminatedRoundTrip(m, order, CRLF, ":");
  }

  /** The same without the last line's CRLF, as the request parser cuts it. */
  lemma CutBlockRoundTrip(m: Headers, order: seq<string>)
    requires GoodHeaders(m) && Enumerates(order, m) && m != map[]
    ensures |Block(m, order)| >= 4
    ensures SplitMap(map[], Block(m, order)[..|Block(m, order)| - 2], CRLF, ":") == Done(m)
  {
    var ls := Lines(m, order, ":");
    assert order != [] by {
      var k :| k in m;
      assert k in order;
    }
    BlockStep(m, order);
    assert |order[0]| > 0;
    TerminatedSnoc(ls, CRLF);
    hide GoodPairs, Lines, Terminated, Joined;
    assert Block(m, order)[..|Block(m, order)| - 2] == Joined(ls, CRLF);
    JoinedRoundTrip(m, order, CRLF, ":");
  }
}
