/** The quoting tokenizer (crates/ussl-protocol/src/parser.rs:312-366). */
module Tokens {
  import opened Basics
  import opened Strings

  function SkipSpaces(s: string, pos: nat): (p: nat)
    ensures pos <= p && (pos <= |s| ==> p <= |s|)
    ensures p < |s| ==> s[p] != ' '
    ensures forall k :: pos <= k < p ==> k < |s| && s[k] == ' '
    decreases |s| - pos
  {
    if pos < |s| && s[pos] == ' ' then SkipSpaces(s, pos + 1) else pos
  }

  /** The token at or after `pos`, and the position behind it. A token that
    * starts with a quote runs to the next quote, if there is one. */
  function NextToken(s: string, pos: nat): (r: (Option<string>, nat))
    requires pos <= |s|
    ensures pos <= r.1 <= |s|
    ensures r.0.Some? ==> pos < r.1
    ensures r.0.None? ==> r.1 == |s|
  {
    var start := SkipSpaces(s, pos);
    if start == |s| then (None, start) else
    var close := Find(s, start + 1, '"');
    if s[start] == '"' && close < |s| then (Some(s[start + 1..close]), close + 1) else
    var end := Find(s, start, ' ');
    (Some(s[start..end]), end)
  }

  /** What is left after the spaces at `pos`. */
  function RestFrom(s: string, pos: nat): (r: (Option<string>, nat))
    requires pos <= |s|
    ensures r.1 == |s|
  {
    var start := SkipSpaces(s, pos);
    if start == |s| then (None, start) else (Some(s[start..]), |s|)
  }

  /** Calling `next` until it answers None. */
  function TokensFrom(s: string, pos: nat): (ts: seq<string>)
    requires pos <= |s|
    ensures |ts| <= |s| - pos
    decreases |s| - pos
  {
    match NextToken(s, pos)
    case (None, _) => []
    case (Some(t), to) => [t] + TokensFrom(s, to)
  }

  class Tokenizer {
    const input: string
    var pos: nat

    ghost predicate Valid()
      reads this
    {
      pos <= |input|
    }

    constructor (input: string)
      ensures this.input == input && pos == 0 && Valid()
    {
      this.input := input;
      pos := 0;
    }

    method Skip()
      requires Valid()
      modifies this`pos
      ensures pos == SkipSpaces(input, old(pos)) && Valid()
    {
      while pos < |input| && input[pos] == ' '
        invariant pos <= |input| && SkipSpaces(input, pos) == SkipSpaces(input, old(pos))
      {
        pos := pos + 1;
      }
    }

    method Next() returns (token: Option<string>)
      requires Valid()
      modifies this`pos
      ensures Valid() && (token, pos) == NextToken(input, old(pos))
    {
      Skip();
      if pos == |input| {
        return None;
      }
      var start := pos;
      if input[start] == '"' {
        var close := Find(input, start + 1, '"');
        if close < |input| {
          pos := close + 1;
          return Some(input[start + 1..close]);
        }
      }
      var end := Find(input, start, ' ');
      pos := end;
      token := Some(input[start..end]);
    }

    method Rest() returns (rest: Option<string>)
      requires Valid()
      modifies this`pos
      ensures Valid() && (rest, pos) == RestFrom(input, old(pos))
    {
      Skip();
      if pos == |input| {
        return None;
      }
      rest := Some(input[pos..]);
      pos := |input|;
    }
  }

  // ---------- spelling tokens ----------

  /** How a token may be written: bare, or between quotes. */
  datatype Spelling = Bare(text: string) | Quoted(text: string)

  predicate Spellable(x: Spelling) {
    match x
    case Bare(t) => t != "" && Free(t, ' ') && t[0] != '"'
    case Quoted(t) => Free(t, '"')
  }

  function Spell(x: Spelling): (s: string)
    ensures Spellable(x) ==> s != "" && s[0] != ' '
  {
    match x
    case Bare(t) => t
    case Quoted(t) => "\"" + t + "\""
  }

  /** Each token preceded by a space. */
  function SpellAll(xs: seq<Spelling>): string {
    if xs == [] then "" else " " + Spell(xs[0]) + SpellAll(xs[1..])
  }

  function Texts(xs: seq<Spelling>): seq<string> {
    if xs == [] then [] else [xs[0].text] + Texts(xs[1..])
  }

  lemma SkipIs(s: string, pos: nat, p: nat)
    requires pos <= p < |s| && s[p] != ' ' && forall k :: pos <= k < p ==> s[k] == ' '
    ensures SkipSpaces(s, pos) == p
  {}

  lemma NothingFound(s: string, from: nat, c: char)
    requires from <= |s| && forall k :: from <= k < |s| ==> s[k] != c
    ensures Find(s, from, c) == |s|
  {}

  /** A spelled token is read back from the middle of a text, up to the next space or the end. */
  lemma NextOfSpell(s: string, pos: nat, x: Spelling, to: nat)
    requires Spellable(x)
    requires pos <= |s|
    requires SkipSpaces(s, pos) + |Spell(x)| == to <= |s| && s[SkipSpaces(s, pos)..to] == Spell(x)
    requires to < |s| ==> s[to] == ' '
    ensures NextToken(s, pos) == (Some(x.text), to)
  {
    hide SkipSpaces, Find;
    var start := SkipSpaces(s, pos);
    var w := Spell(x);
    assert forall i :: start <= i < to ==> s[i] == s[start..to][i - start];
    assert s[start] == w[0];
    match x
    case Bare(t) =>
      if to < |s| {
        FindIs(s, start, ' ', to);
      } else {
        NothingFound(s, start, ' ');
      }
    case Quoted(t) =>
      assert s[to - 1] == w[|w| - 1] == '"';
      assert forall i :: start < i < to - 1 ==> s[i] == t[i - start - 1];
      FindIs(s, start + 1, '"', to - 1);
      assert s[start + 1..to - 1] == t;
  }

  lemma SpaceFirst(xs: seq<Spelling>)
    ensures SpellAll(xs) != "" ==> SpellAll(xs)[0] == ' '
  {}

  lemma {:induction false} TokensOfSpellAll(s: string, pos: nat, xs: seq<Spelling>)
    requires forall i :: 0 <= i < |xs| ==> Spellable(xs[i])
    requires pos <= |s| && s[pos..] == SpellAll(xs)
    ensures TokensFrom(s, pos) == Texts(xs)
    decreases |xs|
  {
    hide NextToken, Spell;
    if xs != [] {
      var to := pos + 1 + |Spell(xs[0])|;
      SpaceFirst(xs[1..]);
      NextSpelled(s, pos, xs[0], SpellAll(xs[1..]));
      TokensOfSpellAll(s, to, xs[1..]);
    }
  }

  lemma NextSpelled(s: string, pos: nat, x: Spelling, after: string)
    requires Spellable(x)
    requires pos <= |s| && s[pos..] == " " + Spell(x) + after
    requires after != "" ==> after[0] == ' '
    ensures var to := pos + 1 + |Spell(x)|;
            to <= |s| && NextToken(s, pos) == (Some(x.text), to) && s[to..] == after
  {
    var w := Spell(x);
    var to := pos + 1 + |w|;
    assert forall i :: pos <= i < |s| ==> s[i] == s[pos..][i - pos];
    assert s[pos] == ' ' && s[pos + 1] == w[0];
    SkipIs(s, pos, pos + 1);
    assert s[pos + 1..to] == w;
    assert s[to..] == after;
    NextOfSpell(s, pos, x, to);
  }

  /** Any list of tokens, each bare or quoted and set off by spaces, tokenizes back to itself. */
  lemma TokenizerInverts(xs: seq<Spelling>)
    requires forall i :: 0 <= i < |xs| ==> Spellable(xs[i])
    ensures TokensFrom(SpellAll(xs), 0) == Texts(xs)
  {
    TokensOfSpellAll(SpellAll(xs), 0, xs);
  }

  /** A token that starts with a quote that is never closed keeps it, and ends at a space. */
  lemma UnclosedQuote(s: string, pos: nat, to: nat)
    requires pos < to <= |s| && s[pos] == '"' && (to < |s| ==> s[to] == ' ')
    requires forall k :: pos < k < |s| ==> s[k] != '"'
    requires forall k :: pos <= k < to ==> s[k] != ' '
    ensures NextToken(s, pos) == (Some(s[pos..to]), to)
  {
    SkipIs(s, pos, pos);
    NothingFound(s, pos + 1, '"');
    if to < |s| {
      FindIs(s, pos, ' ', to);
    } else {
      NothingFound(s, pos, ' ');
    }
  }
}
