/** `ExtractNumbers`: keep the digit characters of a string, in order. */
module StrPkg {

  /** Decimal digit. Only the ASCII digits are modelled. */
  predicate IsDigit(c: char)
  {
    '0' <= c <= '9'
  }

  predicate AllDigits(s: string)
  {
    forall i :: 0 <= i < |s| ==> IsDigit(s[i])
  }

  /** Specification: the digits of `s`, in order, appended one at a time from
      the front of `s` as the loop of `ExtractNumbers` does. */
  function Digits(s: string): (r: string)
    ensures AllDigits(r)
    ensures |r| <= |s|
    decreases |s|
  {
    if s == [] then []
    else
      var last := s[|s| - 1];
      Digits(s[..|s| - 1]) + (if IsDigit(last) then [last] else [])
  }

  /** The string builder loop: one pass over the input, appending each digit. */
  method ExtractNumbers(input: string) returns (out: string)
    ensures out == Digits(input)
  {
    out := "";
    var i := 0;
    while i < |input|
      invariant 0 <= i <= |input|
      invariant out == Digits(input[..i])
    {
      assert input[..i + 1][..i] == input[..i];
      if IsDigit(input[i]) {
        out := out + [input[i]];
      }
      i := i + 1;
    }
    assert input[..|input|] == input;
  }

  /** Extracting distributes over concatenation. */
  lemma {:induction false} DigitsConcat(a: string, b: string)
    ensures Digits(a + b) == Digits(a) + Digits(b)
    decreases |b|
  {
    if b == [] {
      assert a + b == a;
    } else {
      var b' := b[..|b| - 1];
      assert (a + b)[..|a + b| - 1] == a + b';
      DigitsConcat(a, b');
    }
  }

  /** A string of digits is left as it is; no digit is ever dropped. */
  lemma {:induction false} DigitsOfDigitString(s: string)
    requires AllDigits(s)
    ensures Digits(s) == s
    decreases |s|
  {
    if s != [] {
      DigitsOfDigitString(s[..|s| - 1]);
    }
  }

  /** Extracting twice is extracting once. */
  lemma DigitsIdempotent(s: string)
    ensures Digits(Digits(s)) == Digits(s)
  {
    DigitsOfDigitString(Digits(s));
  }

  /** The output is as long as the input exactly when the input is all digits. */
  lemma {:induction false} DigitsLengthExact(s: string)
    ensures |Digits(s)| == |s| <==> AllDigits(s)
    decreases |s|
  {
    if s != [] {
      var init := s[..|s| - 1];
      DigitsLengthExact(init);
      if AllDigits(s) {
        assert AllDigits(init) by {
          forall i | 0 <= i < |init| ensures IsDigit(init[i]) { assert init[i] == s[i]; }
        }
      } else if |Digits(s)| == |s| {
        assert |Digits(init)| == |init| && IsDigit(s[|s| - 1]);
        forall i | 0 <= i < |s| ensures IsDigit(s[i]) {
          if i < |init| { assert s[i] == init[i]; }
        }
        assert false;
      }
    }
  }

  /** `t` can be obtained from `s` by deleting characters. */
  ghost predicate Subsequence(t: string, s: string)
    decreases |s|
  {
    if t == [] then true
    else if s == [] then false
    else
      (t[|t| - 1] == s[|s| - 1] && Subsequence(t[..|t| - 1], s[..|s| - 1]))
      || Subsequence(t, s[..|s| - 1])
  }

  /** The output is an in-order subsequence of the input ... */
  lemma {:induction false} DigitsIsSubsequence(s: string)
    ensures Subsequence(Digits(s), s)
    decreases |s|
  {
    if s != [] {
      var init := s[..|s| - 1];
      DigitsIsSubsequence(init);
      var d := Digits(s);
      if IsDigit(s[|s| - 1]) {
        assert d[..|d| - 1] == Digits(init);
      } else {
        assert d == Digits(init);
        if d != [] {
          assert Subsequence(d, init);
        }
      }
    }
  }

  /** ... that keeps every digit occurrence and no other character. */
  lemma {:induction false} DigitsKeepsDigitCounts(s: string, c: char)
    ensures multiset(Digits(s))[c] == if IsDigit(c) then multiset(s)[c] else 0
    decreases |s|
  {
    if s != [] {
      var init := s[..|s| - 1];
      var last := s[|s| - 1];
      DigitsKeepsDigitCounts(init, c);
      assert s == init + [last];
      assert multiset(s) == multiset(init) + multiset{last};
      assert multiset(Digits(s)) == multiset(Digits(init)) + multiset(if IsDigit(last) then [last] else []);
    }
  }

  /** The address used by the middleware's tests. */
  lemma LoopbackDigits()
    ensures Digits("127.0.0.1") == "127001"
  {
    DigitsConcat("127.0.0", ".1");
    DigitsConcat("127.0", ".0");
    DigitsConcat("127", ".0");
    assert "127.0.0.1" == "127.0.0" + ".1";
    assert "127.0.0" == "127.0" + ".0";
    assert "127.0" == "127" + ".0";
    DigitsOfDigitString("127");
  }

  /** An input without digits, such as the empty string, yields "". */
  lemma {:induction false} NoDigitsYieldsEmpty(s: string)
    requires forall i :: 0 <= i < |s| ==> !IsDigit(s[i])
    ensures Digits(s) == ""
    decreases |s|
  {
    if s != [] {
      var init := s[..|s| - 1];
      assert forall i :: 0 <= i < |init| ==> init[i] == s[i];
      NoDigitsYieldsEmpty(init);
    }
  }
}
