/** Customer names and titles: the two services cut the title off a name differently. */
module Customers {
  import opened Ledger
  import opened Text

  const TITLES := {"Professor", "Mr", "Mrs", "Miss", "Ms", "Dr", "Drs", "Lord", "Sir", "Lady"}

  /** The text before the first blank. */
  function UpToBlank(s: string): string {
    if s == [] || s[0] == ' ' then [] else [s[0]] + UpToBlank(s[1..])
  }

  /** CRECUST: leading white space does not count, and some title must be there. */
  predicate HasTitle(name: string) {
    UpToBlank(TrimStart(name)) in TITLES
  }

  /** UPDCUST: the name is cut as it is, and a missing title passes. */
  predicate HasTitleOrNone(name: string) {
    UpToBlank(name) in TITLES + {""}
  }

  predicate FitsProfile(name: string, address: string) {
    |name| <= 60 && |address| <= 160
  }

  // Where a title stands in a name.

  /** After `start` white-space characters comes the title, then a blank or the end. */
  ghost predicate TitleAt(name: string, start: nat, title: string) {
    && title in TITLES && start + |title| <= |name|
    && (forall i :: 0 <= i < start ==> IsSpace(name[i]))
    && name[start..start + |title|] == title
    && (start + |title| == |name| || name[start + |title|] == ' ')
  }

  lemma TitlesAreLetters(title: string)
    requires title in TITLES
    ensures |title| >= 2 && forall i :: 0 <= i < |title| ==> !IsSpace(title[i])
  {
  }

  lemma {:induction false} TokenStands(s: string, token: string)
    requires UpToBlank(s) == token
    ensures token <= s && (|token| == |s| || s[|token|] == ' ')
  {
    if s != [] && s[0] != ' ' {
      TokenStands(s[1..], UpToBlank(s[1..]));
      assert s == [s[0]] + s[1..];
    }
  }

  lemma {:induction false} StandingToken(s: string, token: string)
    requires token <= s && (|token| == |s| || s[|token|] == ' ') && ' ' !in token
    ensures UpToBlank(s) == token
  {
    if token != [] {
      assert token[0] in token;
      forall c | c in token[1..]
        ensures c in token
      {
      }
      StandingToken(s[1..], token[1..]);
    }
  }

  lemma {:induction false} TrimStartSplits(s: string) returns (start: nat)
    ensures start <= |s| && TrimStart(s) == s[start..] && forall i :: 0 <= i < start ==> IsSpace(s[i])
    ensures start < |s| ==> !IsSpace(s[start])
  {
    if s == [] || !IsSpace(s[0]) {
      start := 0;
    } else {
      var rest := TrimStartSplits(s[1..]);
      start := rest + 1;
    }
  }

  /** CRECUST's check, told apart from how it cuts the name. */
  lemma TitleStands(name: string) returns (start: nat, title: string)
    requires HasTitle(name)
    ensures TitleAt(name, start, title)
  {
    start := TrimStartSplits(name);
    title := UpToBlank(TrimStart(name));
    TokenStands(TrimStart(name), title);
    TitlesAreLetters(title);
  }

  lemma StandingTitle(name: string, start: nat, title: string)
    requires TitleAt(name, start, title)
    ensures HasTitle(name)
  {
    TitlesAreLetters(title);
    var cut := TrimStartSplits(name);
    assert name[start] == title[0];
    assert name[start..][..|title|] == title;
    StandingToken(name[start..], title);
  }

  /** A stored name keeps its title when an update writes it back without its trailing white space. */
  lemma TrimmedNameKeepsTitle(name: string)
    requires HasTitle(name)
    ensures HasTitle(TrimEnd(name))
  {
    var start, title := TitleStands(name);
    TitlesAreLetters(title);
    TrimEndLaws(name);
    var last := start + |title| - 1;
    assert name[last] == title[|title| - 1];
    assert last < |TrimEnd(name)|;
    assert TrimEnd(name)[start..start + |title|] == title;
    StandingTitle(TrimEnd(name), start, title);
  }

  /** UPDCUST accepts exactly the names it then treats as left out, and those whose title opens the name. */
  lemma UpdateCheckAgainstCreateCheck(name: string)
    ensures HasTitleOrNone(name) <==> IsBlankish(name) || (HasTitle(name) && !IsSpace(name[0]))
  {
    if IsBlankish(name) {
    } else if IsSpace(name[0]) {
      if HasTitleOrNone(name) {
        TitlesAreLetters(UpToBlank(name));
        assert UpToBlank(name)[0] == name[0];
      }
    } else {
      assert TrimStart(name) == name;
      assert UpToBlank(name) == [name[0]] + UpToBlank(name[1..]);
    }
  }
}
