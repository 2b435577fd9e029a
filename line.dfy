/** Text helpers shared by both generations of config_file: the split of a data
    line at its first `=`, the prefix test used on sentinel entries, and the
    space-separated lists that get_strings reads and put(name, vector) writes. */
module Line {

  /** Position of the first `c` in `s`, or |s| when `s` has none
      (std::string::find, with npos written as |s|). */
  function IndexOf(s: string, c: char): (i: nat)
    ensures i <= |s|
    ensures i < |s| ==> s[i] == c
    ensures forall j :: 0 <= j < i ==> s[j] != c
  {
    if s == [] then 0
    else if s[0] == c then 0
    else 1 + IndexOf(s[1..], c)
  }

  /** split(s, "="): the key is everything before the first `=`; the value is
      everything after it, except that a `=` in last position yields the value
      "=" rather than the empty string; without `=` the value is empty. */
  function Split(s: string): (r: (string, string))
    ensures '=' !in r.0
    ensures '=' !in s ==> r == (s, "")
    ensures '=' in s ==>
              |r.0| < |s| && s[..|r.0|] == r.0 && s[|r.0|] == '=' &&
              r.1 == (if |r.0| + 1 == |s| then "=" else s[|r.0| + 1..])
  {
    var pos := IndexOf(s, '=');
    if pos == |s| then
      (s, "")
    else if pos == |s| - 1 then
      (s[..pos], [s[pos]])
    else
      (s[..pos], s[pos + 1..])
  }

  /** A line written as key + "=" + value splits back into the key, and into
      the value unless the value is empty, which comes back as "=". */
  lemma SplitJoin(key: string, value: string)
    requires '=' !in key
    ensures Split(key + "=" + value) == (key, if value == "" then "=" else value)
  {
    var line := key + "=" + value;
    assert line[|key|] == '=';
    assert line[..|key|] == key;
    var r := Split(line);
    assert |r.0| == |key|;
    assert line[|key| + 1..] == value;
  }

  /** Two `key=value` lines with `=`-free keys are equal only when both keys and
      both values are. */
  lemma JoinInjective(k1: string, v1: string, k2: string, v2: string)
    requires '=' !in k1 && '=' !in k2
    requires k1 + "=" + v1 == k2 + "=" + v2
    ensures k1 == k2 && v1 == v2
  {
    SplitJoin(k1, v1);
    SplitJoin(k2, v2);
    assert k1 == k2;
    var line := k1 + "=" + v1;
    assert line[|k1| + 1..] == v1;
    assert line[|k2| + 1..] == v2;
  }

  /** iterator::starts_with, and the `substr(0, n) == phrase` test of
      write_changes: `phrase` is a prefix of `s`. */
  function StartsWith(s: string, phrase: string): (r: bool)
    ensures r <==> |phrase| <= |s| && forall j :: 0 <= j < |phrase| ==> s[j] == phrase[j]
  {
    if |phrase| > |s| then false else s[..|phrase|] == phrase
  }

  lemma StartsWithConcat(phrase: string, rest: string)
    ensures StartsWith(phrase + rest, phrase)
  {
    assert (phrase + rest)[..|phrase|] == phrase;
  }

  /** The pieces that `while (std::getline(in, piece, d))` extracts from the
      text `s`: each `d` ends a piece (so two adjacent ones give an empty
      piece), the text after the last `d` is a piece only when it is not
      empty, and the empty text has none. With d = ' ' these are the tokens
      get_strings reads from a value; with d = '\n' the lines load reads
      from a file. */
  function Tokens(s: string, d: char): (r: seq<string>)
    ensures forall t :: t in r ==> d !in t
    ensures s == [] <==> r == []
    decreases |s|
  {
    if s == [] then []
    else
      var i := IndexOf(s, d);
      if i == |s| then [s] else [s[..i]] + Tokens(s[i + 1..], d)
  }

  /** Every element of `xs` followed by one `d`: how put(name, vector) formats
      a list (d = ' ') and how write_changes lays out its lines (d = '\n'). */
  function Terminated(xs: seq<string>, d: char): (r: string)
    ensures xs == [] <==> r == []
    ensures r != [] ==> r[|r| - 1] == d
  {
    if xs == [] then [] else Terminated(xs[..|xs| - 1], d) + xs[|xs| - 1] + [d]
  }

  lemma {:induction false} TerminatedCons(xs: seq<string>, d: char)
    requires xs != []
    ensures Terminated(xs, d) == xs[0] + [d] + Terminated(xs[1..], d)
    decreases |xs|
  {
    var n := |xs|;
    if n == 1 {
      assert xs[..0] == [] && xs[1..] == [];
    } else {
      var init, last, tail := xs[..n - 1], xs[n - 1], xs[1..];
      assert Terminated(xs, d) == Terminated(init, d) + last + [d];
      TerminatedCons(init, d);
      assert init[0] == xs[0];
      assert init[1..] == tail[..|tail| - 1];
      assert tail[|tail| - 1] == last;
      var mid := Terminated(init[1..], d);
      assert Terminated(tail, d) == mid + last + [d];
      calc {
        Terminated(xs, d);
        (xs[0] + [d] + mid) + last + [d];
        { assert (xs[0] + [d] + mid) + last + [d] == xs[0] + [d] + (mid + last + [d]); }
        xs[0] + [d] + (mid + last + [d]);
      }
    }
  }

  /** One getline step: a piece free of `d` followed by a `d`. */
  lemma TokensCons(x: string, rest: string, d: char)
    requires d !in x
    ensures Tokens(x + [d] + rest, d) == [x] + Tokens(rest, d)
  {
    var s := x + [d] + rest;
    assert s[|x|] == d;
    var i := IndexOf(s, d);
    assert i == |x|;
    assert s[..i] == x;
    assert s[i + 1..] == rest;
  }

  /** The pieces read back from terminated text are the elements themselves,
      provided no element contains the delimiter. */
  lemma {:induction false} TokensOfTerminated(xs: seq<string>, d: char)
    requires forall i :: 0 <= i < |xs| ==> d !in xs[i]
    ensures Tokens(Terminated(xs, d), d) == xs
    decreases |xs|
  {
    if xs != [] {
      TerminatedCons(xs, d);
      TokensCons(xs[0], Terminated(xs[1..], d), d);
      TokensOfTerminated(xs[1..], d);
    }
  }

  /** Terminating the pieces of a text gives the text back, with one `d`
      appended when it did not already end in one. */
  lemma {:induction false} TerminatedOfTokens(s: string, d: char)
    ensures Terminated(Tokens(s, d), d) == if s == [] || s[|s| - 1] == d then s else s + [d]
    decreases |s|
  {
    if s != [] {
      var i := IndexOf(s, d);
      if i == |s| {
        TerminatedOfWord(s, d);
      } else {
        var head, rest := s[..i], s[i + 1..];
        assert s == head + [d] + rest;
        TokensCons(head, rest, d);
        var ts := Tokens(rest, d);
        TerminatedCons([head] + ts, d);
        assert ([head] + ts)[1..] == ts;
        TerminatedOfTokens(rest, d);
        JoinEnding(head, rest, d);
      }
    }
  }

  lemma TerminatedOfWord(s: string, d: char)
    requires s != [] && d !in s
    ensures Terminated(Tokens(s, d), d) == s + [d] && s[|s| - 1] != d
  {
    assert s[|s| - 1] in s;
    assert IndexOf(s, d) == |s|;
    assert Tokens(s, d) == [s];
    assert [s][..0] == [];
    assert Terminated([s], d) == Terminated([], d) + s + [d];
  }

  lemma JoinEnding(head: string, rest: string, d: char)
    ensures var s := head + [d] + rest;
      head + [d] + (if rest == [] || rest[|rest| - 1] == d then rest else rest + [d])
      == (if s[|s| - 1] == d then s else s + [d])
  {
    var s := head + [d] + rest;
    if rest != [] {
      assert s[|s| - 1] == rest[|rest| - 1];
      assert head + [d] + (rest + [d]) == s + [d];
    }
  }

  /** One call of std::getline(in, piece, d) on the part of `s` from `pos` on:
      it extracts the characters up to the next `d` or the end, drops the
      `d`, and leaves the stream after it. */
  method GetLine(s: string, pos: nat, d: char) returns (token: string, next: nat)
    requires pos < |s|
    ensures pos < next <= |s|
    ensures d !in token
    ensures Tokens(s[pos..], d) == [token] + Tokens(s[next..], d)
  {
    var j := pos;
    while j < |s| && s[j] != d
      invariant pos <= j <= |s|
      invariant forall q :: pos <= q < j ==> s[q] != d
    {
      j := j + 1;
    }
    token := s[pos..j];
    next := if j < |s| then j + 1 else j;
    TokenStep(s, pos, j, next, d);
  }

  /** What one getline call reads, starting at `pos` and stopping at the next
      `d` or the end of `s` at `j`. */
  lemma TokenStep(s: string, pos: nat, j: nat, next: nat, d: char)
    requires pos < |s| && pos <= j <= |s|
    requires forall q :: pos <= q < j ==> s[q] != d
    requires j < |s| ==> s[j] == d && next == j + 1
    requires j == |s| ==> next == j
    ensures Tokens(s[pos..], d) == [s[pos..j]] + Tokens(s[next..], d)
  {
    var t := s[pos..];
    var i := IndexOf(t, d);
    if j < |s| {
      assert t[j - pos] == d;
    }
    assert i == j - pos;
    assert t[..i] == s[pos..j];
    if j < |s| {
      assert t[i + 1..] == s[next..];
      assert Tokens(t, d) == [t[..i]] + Tokens(t[i + 1..], d);
    } else {
      assert t == s[pos..j];
      assert Tokens(t, d) == [t];
      assert s[next..] == [];
    }
  }
}
