/**
 * Splitting the `-dest` argument into destination numbers with
 * `new StringTokenizer(dest, ",")`: the tokens are the maximal non-empty runs of
 * characters other than `,`, in their original order.
 */
module Tokenizer {

  const COMMA: char := ','

  /** The length of the run of non-comma characters at the start of `s`. */
  function RunLength(s: string): (n: nat)
    ensures n <= |s|
    ensures forall k :: 0 <= k < n ==> s[k] != COMMA
    ensures n < |s| ==> s[n] == COMMA
  {
    if s == [] || s[0] == COMMA then 0 else 1 + RunLength(s[1..])
  }

  /** The tokens `StringTokenizer` returns for `s` with `,` as the only delimiter. */
  function Tokens(s: string): (r: seq<string>)
    ensures forall j :: 0 <= j < |r| ==> IsToken(r[j])
    decreases |s|
  {
    if s == [] then []
    else if s[0] == COMMA then Tokens(s[1..])
    else var n := RunLength(s); [s[..n]] + Tokens(s[n..])
  }

  /** A token: non-empty and free of commas. */
  predicate IsToken(t: string) {
    t != [] && forall k :: 0 <= k < |t| ==> t[k] != COMMA
  }

  /** Every segment between commas, empty ones included (the reference split). */
  function Segments(s: string): (r: seq<string>)
    ensures |r| >= 1
    decreases |s|
  {
    var n := RunLength(s);
    if n == |s| then [s] else [s[..n]] + Segments(s[n + 1..])
  }

  /** The segments joined back with commas in between. */
  function Join(parts: seq<string>): string {
    if parts == [] then []
    else if |parts| == 1 then parts[0]
    else parts[0] + [COMMA] + Join(parts[1..])
  }

  /** The non-empty elements of `parts`, in order. */
  function NonEmpty(parts: seq<string>): seq<string> {
    if parts == [] then []
    else if parts[0] == [] then NonEmpty(parts[1..])
    else [parts[0]] + NonEmpty(parts[1..])
  }

  /** The tokenizer loop of `main`, collecting the tokens into a list. */
  method SplitDestinations(dest: string) returns (destinations: seq<string>)
    ensures destinations == Tokens(dest)
  {
    destinations := [];
    var i := 0;
    while i < |dest|
      invariant 0 <= i <= |dest|
      invariant destinations + Tokens(dest[i..]) == Tokens(dest)
    {
      // hasMoreTokens: skip the delimiters
      while i < |dest| && dest[i] == COMMA
        invariant 0 <= i <= |dest|
        invariant destinations + Tokens(dest[i..]) == Tokens(dest)
      {
        assert dest[i..][1..] == dest[i + 1..];
        i := i + 1;
      }
      if i < |dest| {
        // nextToken: the run up to the next delimiter
        var start := i;
        while i < |dest| && dest[i] != COMMA
          invariant start <= i <= |dest|
          invariant forall k :: start <= k < i ==> dest[k] != COMMA
        {
          i := i + 1;
        }
        RunLengthAt(dest[start..], i - start);
        assert dest[start..][..i - start] == dest[start..i];
        assert dest[start..][i - start..] == dest[i..];
        destinations := destinations + [dest[start..i]];
      }
    }
    assert dest[|dest|..] == [];
  }

  /** RunLength is pinned down by its postconditions. */
  lemma {:induction false} RunLengthAt(s: string, n: nat)
    requires n <= |s|
    requires forall k :: 0 <= k < n ==> s[k] != COMMA
    requires n < |s| ==> s[n] == COMMA
    ensures RunLength(s) == n
    decreases n
  {
    if n > 0 {
      assert s[0] != COMMA;
      RunLengthAt(s[1..], n - 1);
    }
  }

  /** The tokens are the segments between commas with the empty ones dropped. */
  lemma {:induction false} TokensAreNonEmptySegments(s: string)
    ensures Tokens(s) == NonEmpty(Segments(s))
    decreases |s|
  {
    var n := RunLength(s);
    if s == [] {
    } else if n == |s| {
      assert s[..n] == s && s[n..] == [];
      assert Tokens(s) == [s] + Tokens([]);
    } else if n == 0 {
      assert s[..0] == [] && s[1..] == s[n + 1..];
      TokensAreNonEmptySegments(s[1..]);
    } else {
      var rest := s[n..];
      assert rest[0] == COMMA && rest[1..] == s[n + 1..];
      assert Tokens(rest) == Tokens(s[n + 1..]);
      TokensAreNonEmptySegments(s[n + 1..]);
      assert s[..n] != [];
    }
  }

  /** Joining the segments with commas gives back the original string. */
  lemma {:induction false} JoinSegments(s: string)
    ensures Join(Segments(s)) == s
    decreases |s|
  {
    var n := RunLength(s);
    if n == |s| {
      assert s[..n] == s;
    } else {
      JoinSegments(s[n + 1..]);
      assert s == s[..n] + [COMMA] + s[n + 1..];
    }
  }

  /** Tokenizing a comma-joined list of tokens gives the list back. */
  lemma {:induction false} TokensOfJoin(parts: seq<string>)
    requires forall j :: 0 <= j < |parts| ==> IsToken(parts[j])
    ensures Tokens(Join(parts)) == parts
    decreases |parts|
  {
    if parts != [] {
      var t := parts[0];
      var s := Join(parts);
      assert IsToken(t);
      if |parts| == 1 {
        RunLengthAt(s, |t|);
        assert s[..|t|] == t && s[|t|..] == [];
      } else {
        var rest := Join(parts[1..]);
        assert s == t + [COMMA] + rest;
        RunLengthAt(s, |t|);
        assert s[..|t|] == t;
        assert s[|t|..][0] == COMMA && s[|t|..][1..] == rest;
        assert Tokens(s[|t|..]) == Tokens(rest);
        TokensOfJoin(parts[1..]);
        assert parts == [t] + parts[1..];
      }
    }
  }
}
