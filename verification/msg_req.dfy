/** Message numbers: a decimal odometer, seeded at random and run up to all nines. */
module MsgReq {
  predicate Digits(s: string) {
    forall i :: 0 <= i < |s| ==> '0' <= s[i] <= '9'
  }

  predicate AllNines(s: string) {
    forall i :: 0 <= i < |s| ==> s[i] == '9'
  }

  function Value(s: string): nat
    requires Digits(s)
  {
    if s == "" then 0 else Value(s[..|s| - 1]) * 10 + (s[|s| - 1] as int - 48)
  }

  function Pow10(n: nat): nat {
    if n == 0 then 1 else 10 * Pow10(n - 1)
  }

  /** The string after the carry loop and the loop that writes zeros. */
  function Next(s: string): (r: string)
    requires Digits(s)
    ensures |r| == |s| && Digits(r)
  {
    if s == "" then ""
    else if s[|s| - 1] == '9' then
      var r := Next(s[..|s| - 1]);
      if AllNines(s[..|s| - 1]) then s else r + "0"
    else s[..|s| - 1] + [(s[|s| - 1] as int + 1) as char]
  }

  lemma {:induction false} NinesValue(s: string)
    requires Digits(s)
    ensures Value(s) < Pow10(|s|)
    ensures AllNines(s) <==> Value(s) == Pow10(|s|) - 1
  {
    if s != "" {
      var t := s[..|s| - 1];
      NinesValue(t);
      assert AllNines(s) <==> AllNines(t) && s[|s| - 1] == '9';
    }
  }

  /** The number goes up by exactly one until it is all nines, and stays there. */
  lemma {:induction false} NextAddsOne(s: string)
    requires Digits(s)
    ensures Value(Next(s)) == if AllNines(s) then Value(s) else Value(s) + 1
  {
    if s != "" {
      var t, last := s[..|s| - 1], s[|s| - 1];
      assert AllNines(s) <==> AllNines(t) && last == '9';
      var r := Next(s);
      NextAddsOne(t);
      if last != '9' || !AllNines(t) {
        assert r[..|r| - 1] == if last == '9' then Next(t) else t;
      }
    }
  }

  ghost function Iterate(s: string, k: nat): (r: string)
    requires Digits(s)
    ensures |r| == |s| && Digits(r)
  {
    if k == 0 then s else Next(Iterate(s, k - 1))
  }

  lemma {:induction false} IterateValue(s: string, k: nat)
    requires Digits(s) && Value(s) + k < Pow10(|s|)
    ensures Value(Iterate(s, k)) == Value(s) + k
  {
    hide Value, Next, Pow10, AllNines, Digits;
    if k > 0 {
      IterateValue(s, k - 1);
      NinesValue(Iterate(s, k - 1));
      NextAddsOne(Iterate(s, k - 1));
    }
  }

  /** Numbers issued from one seed are pairwise distinct until all nines. */
  lemma SeedNumbersDistinct(s: string, i: nat, j: nat)
    requires Digits(s) && i < j && Value(s) + j < Pow10(|s|)
    ensures Iterate(s, i) != Iterate(s, j)
    ensures !AllNines(Iterate(s, i))
  {
    IterateValue(s, i);
    IterateValue(s, j);
    NinesValue(Iterate(s, i));
  }

  /** The thread-local strings; the one that is counted up is changed in place. */
  class MsgReqUtil {
    var nu: array<char>
    var max: string

    constructor ()
      ensures nu.Length == 0 && max == "" && Valid() && fresh(nu)
    {
      nu := new char[0];
      max := "";
    }

    /** The number has digits only, and `max` is the nines of its length. */
    ghost predicate Valid()
      reads this, nu
    {
      Digits(nu[..]) && max == seq(nu.Length, _ => '9')
    }

    /** `random` is what read(2) got from /dev/urandom when the number is seeded; `len` the configured length. */
    method GenMsgNumber(len: nat, random: seq<int>) returns (number: string)
      requires Valid() && forall i :: 0 <= i < |random| ==> 0 <= random[i] < 256
      modifies this, nu
      ensures Valid()
      ensures
        if old(nu.Length) == 0 || AllNines(old(nu[..])) then
          if |random| != len then number == "" && nu[..] == old(nu[..])
          else number == nu[..] && |number| == len && forall i :: 0 <= i < len ==> number[i] as int == 48 + random[i] % 10
        else
          number == nu[..] == Next(old(nu[..])) && Value(number) == Value(old(nu[..])) + 1
    {
      AllNinesIsMax(nu[..]);
      if nu.Length == 0 || nu[..] == max {
        number := Seed(len, random);
      } else {
        CountUp();
        number := nu[..];
        NextAddsOne(old(nu[..]));
      }
    }

    method Seed(len: nat, random: seq<int>) returns (number: string)
      requires Valid() && forall i :: 0 <= i < |random| ==> 0 <= random[i] < 256
      modifies this
      ensures Valid()
      ensures
        if |random| != len then number == "" && nu == old(nu)
        else number == nu[..] && |number| == len && forall i :: 0 <= i < len ==> number[i] as int == 48 + random[i] % 10
    {
      if |random| != len {
        return "";
      }
      var res := new char[len](_ => '0');
      var nines := "";
      var i := 0;
      while i < len
        invariant 0 <= i <= len && nines == seq(i, _ => '9')
        invariant forall k :: 0 <= k < i ==> res[k] as int == 48 + random[k] % 10
      {
        var x := random[i] % 10;
        res[i] := (x + 48) as char;
        nines := nines + "9";
        i := i + 1;
      }
      nu := res;
      max := nines;
      number := nu[..];
    }

    /** The carry loop; it never runs off the front because the number is not all nines. */
    method CountUp()
      requires Digits(nu[..]) && !AllNines(nu[..])
      modifies nu
      ensures nu[..] == Next(old(nu[..]))
    {
      var i := nu.Length - 1;
      while nu[i] == '9' && i >= 0
        invariant 0 <= i < nu.Length
        invariant !AllNines(nu[..i + 1])
        invariant forall k :: i < k < nu.Length ==> nu[k] == '9'
        decreases i
      {
        assert nu[..i + 1] == nu[..i] + ['9'];
        i := i - 1;
      }
      nu[i] := (nu[i] as int + 1) as char;
      var j := i + 1;
      while j < nu.Length
        invariant i < j <= nu.Length
        invariant nu[i] as int == old(nu[i]) as int + 1
        invariant forall k :: 0 <= k < nu.Length && k != i ==> nu[k] == if i < k < j then '0' else old(nu[k])
      {
        nu[j] := '0';
        j := j + 1;
      }
      CarryIsNext(old(nu[..]), i, nu[..]);
    }
  }

  lemma AllNinesIsMax(s: string)
    ensures s == seq(|s|, _ => '9') <==> AllNines(s)
  {
  }

  /** Raising the last digit that is not a nine and zeroing the nines after it. */
  lemma {:induction false} CarryIsNext(s: string, i: nat, r: string)
    requires Digits(s) && i < |s| == |r| && s[i] != '9' && r[i] as int == s[i] as int + 1
    requires forall k :: 0 <= k < i ==> r[k] == s[k]
    requires forall k :: i < k < |s| ==> s[k] == '9' && r[k] == '0'
    ensures r == Next(s)
  {
    var n := |s| - 1;
    if i < n {
      CarryIsNext(s[..n], i, r[..n]);
      assert s[..n][i] != '9';
      assert r == r[..n] + "0";
    } else {
      assert r == s[..n] + [r[n]];
    }
  }
}
