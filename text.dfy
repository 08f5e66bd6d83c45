/** The string operations the page applies to names typed by the user:
    JavaScript's String.prototype.trim, and replacing every run of
    whitespace with one underscore (a global `/\s+/` replace). */
module Text {

  /** JavaScript's white space and line terminators: what `trim` removes
      and what `\s` matches. */
  predicate IsSpace(c: char) {
    || c == '\t' || c == '\n' || c == '\U{B}' || c == '\U{C}' || c == '\r'
    || c == ' ' || c == '\U{A0}' || c == '\U{1680}' || ('\U{2000}' <= c <= '\U{200A}')
    || c == '\U{2028}' || c == '\U{2029}' || c == '\U{202F}' || c == '\U{205F}'
    || c == '\U{3000}' || c == '\U{FEFF}'
  }

  predicate NoSpace(s: string) {
    forall i :: 0 <= i < |s| ==> !IsSpace(s[i])
  }

  predicate AllSpace(s: string) {
    forall i :: 0 <= i < |s| ==> IsSpace(s[i])
  }

  /** s without its leading white space. */
  function TrimStart(s: string): (r: string)
    ensures |r| <= |s| && r == s[|s| - |r|..]
    ensures AllSpace(s[..|s| - |r|])
    ensures r == [] || !IsSpace(r[0])
  {
    if s == [] || !IsSpace(s[0]) then s
    else TrimStart(s[1..])
  }

  /** s without its trailing white space. */
  function TrimEnd(s: string): (r: string)
    ensures |r| <= |s| && r == s[..|r|]
    ensures AllSpace(s[|r|..])
    ensures r == [] || !IsSpace(r[|r| - 1])
  {
    if s == [] || !IsSpace(s[|s| - 1]) then s
    else TrimEnd(s[..|s| - 1])
  }

  /** JavaScript's `trim`: white space removed from both ends. */
  function Trim(s: string): (r: string)
    ensures |r| <= |s|
    ensures r == [] || (!IsSpace(r[0]) && !IsSpace(r[|r| - 1]))
  {
    TrimEnd(TrimStart(s))
  }

  /** The trimmed string is the piece of s between the leading and the
      trailing white space, and everything cut off is white space. */
  lemma TrimCuts(s: string)
    ensures var i := |s| - |TrimStart(s)|;
      i + |Trim(s)| <= |s| && Trim(s) == s[i..i + |Trim(s)|] && AllSpace(s[..i]) && AllSpace(s[i + |Trim(s)|..])
  {
    var t := TrimStart(s);
    var r := TrimEnd(t);
    var i := |s| - |t|;
    assert s[i + |r|..] == t[|r|..];
  }

  /** Trimming gives the empty string exactly when s is all white space. */
  lemma TrimEmpty(s: string)
    ensures Trim(s) == [] <==> AllSpace(s)
  {
    var t := TrimStart(s);
    if Trim(s) == [] {
      assert t[0..] == t;
      assert s[..|s| - |t|] == s;
    }
    if AllSpace(s) {
      TrimStartRun(s, []);
      assert s + [] == s;
    }
  }

  lemma {:induction false} TrimStartRun(w: string, t: string)
    requires AllSpace(w)
    requires t == [] || !IsSpace(t[0])
    ensures TrimStart(w + t) == t
    decreases |w|
  {
    if w != [] {
      assert (w + t)[1..] == w[1..] + t;
      TrimStartRun(w[1..], t);
    } else {
      assert w + t == t;
    }
  }

  lemma {:induction false} TrimEndRun(t: string, w: string)
    requires AllSpace(w)
    requires t == [] || !IsSpace(t[|t| - 1])
    ensures TrimEnd(t + w) == t
    decreases |w|
  {
    if w != [] {
      assert (t + w)[..|t + w| - 1] == t + w[..|w| - 1];
      TrimEndRun(t, w[..|w| - 1]);
    } else {
      assert t + w == t;
    }
  }

  /** Trimming removes exactly the white space around a piece that starts
      and ends with other characters. */
  lemma TrimAround(lead: string, s: string, trail: string)
    requires AllSpace(lead) && AllSpace(trail)
    requires s == [] || (!IsSpace(s[0]) && !IsSpace(s[|s| - 1]))
    ensures Trim(lead + s + trail) == s
  {
    if s == [] {
      assert lead + s + trail == lead + trail;
      TrimStartRun(lead + trail, []);
      assert lead + trail + [] == lead + trail;
      assert AllSpace(lead + trail);
      TrimEndRun([], []);
    } else {
      assert lead + s + trail == lead + (s + trail);
      TrimStartRun(lead, s + trail);
      TrimEndRun(s, trail);
    }
  }

  /** A string without white space is its own trim. */
  lemma TrimNoSpace(s: string)
    requires NoSpace(s)
    ensures Trim(s) == s
  {
  }

  /** s with its leading run of white space removed. */
  function DropSpaces(s: string): (r: string)
    ensures |r| <= |s| && r == s[|s| - |r|..]
    ensures r == [] || !IsSpace(r[0])
  {
    if s != [] && IsSpace(s[0]) then DropSpaces(s[1..]) else s
  }

  /** The global replace of `/\s+/` by "_": every maximal run of white
      space becomes one underscore, everything else is kept. */
  function UnderscoreSpaces(s: string): (r: string)
    ensures NoSpace(r)
    ensures |r| <= |s|
    ensures r == [] <==> s == []
    decreases |s|
  {
    if s == [] then []
    else if IsSpace(s[0]) then "_" + UnderscoreSpaces(DropSpaces(s))
    else [s[0]] + UnderscoreSpaces(s[1..])
  }

  /** One character outside white space is copied. */
  lemma UnderscoreSpacesCons(c: char, u: string)
    requires !IsSpace(c)
    ensures UnderscoreSpaces([c] + u) == [c] + UnderscoreSpaces(u)
  {
    assert ([c] + u)[1..] == u;
  }

  lemma ConsAppend(w: string, u: string)
    requires w != []
    ensures [w[0]] + (w[1..] + u) == w + u
  {
    assert w == [w[0]] + w[1..];
  }

  /** Characters outside white space are copied one for one. */
  lemma {:induction false} UnderscoreSpacesKeepsWord(w: string, t: string)
    requires NoSpace(w)
    ensures UnderscoreSpaces(w + t) == w + UnderscoreSpaces(t)
    decreases |w|
  {
    if w != [] {
      var rest := w[1..];
      calc {
        UnderscoreSpaces(w + t);
        { assert w + t == [w[0]] + (rest + t); }
        UnderscoreSpaces([w[0]] + (rest + t));
        { UnderscoreSpacesCons(w[0], rest + t); }
        [w[0]] + UnderscoreSpaces(rest + t);
        { UnderscoreSpacesKeepsWord(rest, t); }
        [w[0]] + (rest + UnderscoreSpaces(t));
        { ConsAppend(w, UnderscoreSpaces(t)); }
        w + UnderscoreSpaces(t);
      }
    } else {
      assert w + t == t;
    }
  }

  /** A run of white space followed by something that is not white space
      becomes a single underscore. */
  lemma UnderscoreSpacesRun(w: string, t: string)
    requires w != [] && AllSpace(w)
    requires t == [] || !IsSpace(t[0])
    ensures UnderscoreSpaces(w + t) == "_" + UnderscoreSpaces(t)
  {
    DropSpacesRun(w, t);
  }

  lemma {:induction false} DropSpacesRun(w: string, t: string)
    requires AllSpace(w)
    requires t == [] || !IsSpace(t[0])
    ensures DropSpaces(w + t) == t
    decreases |w|
  {
    if w != [] {
      assert (w + t)[1..] == w[1..] + t;
      DropSpacesRun(w[1..], t);
    } else {
      assert w + t == t;
    }
  }

  /** Two words with a run of white space between them are joined by one
      underscore. */
  lemma UnderscoreSpacesTwoWords(a: string, gap: string, b: string)
    requires NoSpace(a) && NoSpace(b) && b != []
    requires gap != [] && AllSpace(gap)
    ensures UnderscoreSpaces(a + gap + b) == a + "_" + b
  {
    assert a + gap + b == a + (gap + b);
    UnderscoreSpacesKeepsWord(a, gap + b);
    UnderscoreSpacesRun(gap, b);
    UnderscoreSpacesNoSpace(b);
  }

  /** Replacing leaves a string without white space unchanged, so replacing
      twice is replacing once. */
  lemma UnderscoreSpacesNoSpace(s: string)
    requires NoSpace(s)
    ensures UnderscoreSpaces(s) == s
  {
    UnderscoreSpacesKeepsWord(s, []);
    assert s + [] == s;
  }

  /** Joining two strings without white space gives one without. */
  lemma NoSpaceAppend(a: string, b: string)
    requires NoSpace(a) && NoSpace(b)
    ensures NoSpace(a + b)
  {
    forall i | 0 <= i < |a + b|
      ensures !IsSpace((a + b)[i])
    {
      if i >= |a| { assert (a + b)[i] == b[i - |a|]; }
    }
  }

  /** Visible ASCII characters are not white space. */
  lemma VisibleNoSpace(s: string)
    requires forall i :: 0 <= i < |s| ==> '!' <= s[i] <= '~'
    ensures NoSpace(s)
  {
  }
}
