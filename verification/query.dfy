/** The career form's input handling (app.py): comma-separated skills and
    interests become token lists, and the lists become one query text. */
module Query {
  import opened Text

  /** What the form keeps of a piece: non-empty, no surrounding whitespace,
      lower case. */
  predicate IsToken(t: string) {
    |t| > 0 && IsStripped(t) && IsLower(t)
  }

  /** Pieces of a comma split: none holds a comma. */
  predicate CommaFree(pieces: seq<string>) {
    forall k :: 0 <= k < |pieces| ==> Excludes(pieces[k], ',')
  }

  /** `p.strip().lower()` */
  function Normalize(p: string): (r: string)
    ensures Strip(p) != [] ==> IsToken(r)
  {
    LowerToken(Strip(p));
    Lower(Strip(p))
  }

  lemma LowerToken(q: string)
    requires IsStripped(q)
    ensures q != [] ==> IsToken(Lower(q))
  {
    if q != [] {
      var r := Lower(q);
      assert IsSpace(r[0]) == IsSpace(q[0]);
      assert IsSpace(r[|r| - 1]) == IsSpace(q[|q| - 1]);
    }
  }

  /** The comprehension's contribution for one piece: its normal form, or
      nothing when it is blank. */
  function Keep(p: string): seq<string>
  {
    if Strip(p) != [] then [Normalize(p)] else []
  }

  lemma KeepSpec(p: string)
    ensures forall e :: e in Keep(p) ==> IsToken(e)
    ensures Keep(p) == [] <==> AllSpace(p)
    ensures Excludes(p, ',') ==> forall e :: e in Keep(p) ==> Excludes(e, ',')
  {
    if Strip(p) != [] && Excludes(p, ',') {
      StripExcludes(p, ',');
      var n := Normalize(p);
      assert forall i :: 0 <= i < |n| ==> (n[i] == ',' <==> Strip(p)[i] == ',');
    }
  }

  /** `[x for p in pieces for x in f(p)]`: the lists `f` gives for the
      pieces, in order. */
  function ConcatMap<T>(pieces: seq<string>, f: string -> seq<T>): (r: seq<T>)
  {
    if pieces == [] then [] else f(pieces[0]) + ConcatMap(pieces[1..], f)
  }

  lemma {:induction false} ConcatMapAppend<T>(a: seq<string>, b: seq<string>, f: string -> seq<T>)
    ensures ConcatMap(a + b, f) == ConcatMap(a, f) + ConcatMap(b, f)
  {
    if a == [] {
      assert a + b == b;
    } else {
      var ab := a + b;
      assert ab[0] == a[0] && ab[1..] == a[1..] + b;
      ConcatMapAppend(a[1..], b, f);
    }
  }

  lemma {:induction false} ConcatMapEmpty<T>(pieces: seq<string>, f: string -> seq<T>)
    ensures ConcatMap(pieces, f) == [] <==> forall k :: 0 <= k < |pieces| ==> f(pieces[k]) == []
  {
    if pieces != [] {
      ConcatMapEmpty(pieces[1..], f);
      assert forall k :: 1 <= k < |pieces| ==> pieces[k] == pieces[1..][k - 1];
    }
  }

  /** A property every list `f` produces for the pieces holds of the whole result. */
  lemma {:induction false} ConcatMapAll<T>(pieces: seq<string>, f: string -> seq<T>, P: T -> bool)
    requires forall k :: 0 <= k < |pieces| ==> forall e :: e in f(pieces[k]) ==> P(e)
    ensures forall e :: e in ConcatMap(pieces, f) ==> P(e)
  {
    if pieces != [] {
      assert forall k :: 0 <= k < |pieces| - 1 ==> pieces[1..][k] == pieces[k + 1];
      ConcatMapAll(pieces[1..], f, P);
      assert ConcatMap(pieces, f) == f(pieces[0]) + ConcatMap(pieces[1..], f);
    }
  }

  /** The comprehension `[p.strip().lower() for p in pieces if p.strip()]`:
      every kept token is well formed, and nothing is kept exactly when every
      piece is blank. */
  function Tokens(pieces: seq<string>): (r: seq<string>)
    ensures forall k :: 0 <= k < |r| ==> IsToken(r[k])
    ensures CommaFree(pieces) ==> CommaFree(r)
    ensures r == [] <==> forall k :: 0 <= k < |pieces| ==> AllSpace(pieces[k])
  {
    var r := ConcatMap(pieces, Keep);
    forall k | 0 <= k < |pieces|
      ensures Keep(pieces[k]) == [] <==> AllSpace(pieces[k])
      ensures forall e :: e in Keep(pieces[k]) ==> IsToken(e)
      ensures Excludes(pieces[k], ',') ==> forall e :: e in Keep(pieces[k]) ==> Excludes(e, ',')
    {
      KeepSpec(pieces[k]);
    }
    ConcatMapEmpty(pieces, Keep);
    ConcatMapAll(pieces, Keep, IsToken);
    assert forall k :: 0 <= k < |r| ==> r[k] in r;
    assert CommaFree(pieces) ==> CommaFree(r) by {
      if CommaFree(pieces) {
        ConcatMapAll(pieces, Keep, e => Excludes(e, ','));
      }
    }
    r
  }

  /** Tokenising keeps the pieces in order: it distributes over concatenation. */
  lemma TokensAppend(a: seq<string>, b: seq<string>)
    ensures Tokens(a + b) == Tokens(a) + Tokens(b)
  {
    ConcatMapAppend(a, b, Keep);
  }

  /** What one piece contributes: nothing when it is blank, otherwise its
      stripped, lower-cased text. With `TokensAppend` this fixes `Tokens` on
      every list of pieces. */
  lemma TokensSingle(p: string)
    ensures Tokens([p]) == (if AllSpace(p) then [] else [Lower(Strip(p))])
  {
    assert ConcatMap([p], Keep) == Keep(p) + ConcatMap([p][1..], Keep);
  }

  /** `[s.strip().lower() for s in text.split(",") if s.strip()]` (app.py:26-27). */
  function ParseList(text: string): (r: seq<string>)
    ensures forall k :: 0 <= k < |r| ==> IsToken(r[k])
    ensures CommaFree(r)
    ensures r == [] <==> Blank(text)
  {
    var pieces := Split(text, ',');
    BlankJoin(pieces);
    Tokens(pieces)
  }

  /** Input without a comma is one piece: it parses to its own stripped,
      lower-cased text, or to nothing when blank. */
  lemma ParseListOnePiece(x: string)
    requires Excludes(x, ',')
    ensures ParseList(x) == (if AllSpace(x) then [] else [Lower(Strip(x))])
  {
    SplitPrefix(x, "", ',');
    TokensSingle(x);
  }

  /** The text before the first comma contributes its token, if any, ahead of
      the tokens of the rest: with `ParseListOnePiece` this fixes the parse of
      every input, piece by piece and in order. */
  lemma ParseListFirstPiece(x: string, rest: string)
    requires Excludes(x, ',')
    ensures ParseList(x + [','] + rest)
            == (if AllSpace(x) then [] else [Lower(Strip(x))]) + ParseList(rest)
  {
    SplitPrefix(x, rest, ',');
    TokensAppend([x], Split(rest, ','));
    TokensSingle(x);
  }

  /** Input holding nothing but commas and whitespace. */
  predicate Blank(s: string) {
    forall i :: 0 <= i < |s| ==> s[i] == ',' || IsSpace(s[i])
  }

  lemma BlankConcat(a: string, b: string)
    ensures Blank(a + b) <==> Blank(a) && Blank(b)
  {
    assert forall i :: 0 <= i < |a| ==> (a + b)[i] == a[i];
    assert forall i :: 0 <= i < |b| ==> (a + b)[|a| + i] == b[i];
    if Blank(a) && Blank(b) {
      forall i | 0 <= i < |a + b|
        ensures (a + b)[i] == ',' || IsSpace((a + b)[i])
      {
        if i >= |a| {
          assert (a + b)[i] == b[i - |a|];
        }
      }
    }
  }

  /** A joined list is blank exactly when every piece is. */
  lemma {:induction false} BlankJoin(xs: seq<string>)
    requires CommaFree(xs)
    ensures Blank(Join(xs, ',')) <==> forall k :: 0 <= k < |xs| ==> AllSpace(xs[k])
  {
    if |xs| > 0 {
      assert Excludes(xs[0], ',');
      assert Blank(xs[0]) <==> AllSpace(xs[0]);
    }
    if |xs| > 1 {
      BlankJoin(xs[1..]);
      assert forall k :: 1 <= k < |xs| ==> xs[k] == xs[1..][k - 1];
      BlankConcat(xs[0] + [','], Join(xs[1..], ','));
      BlankConcat(xs[0], [',']);
    }
  }

  /** Parsing a comma-joined list of comma-free pieces yields the tokens of
      those pieces in their original order. */
  lemma ParseJoin(pieces: seq<string>)
    requires |pieces| >= 1
    requires CommaFree(pieces)
    ensures ParseList(Join(pieces, ',')) == Tokens(pieces)
  {
    SplitJoin(pieces, ',');
  }

  /** `" ".join(user_skills + user_interests)` (app.py:31): the skills and then
      the interests, one space between neighbours; nothing at all for an
      empty query. */
  function QueryText(skills: seq<string>, interests: seq<string>): (r: string)
    ensures |skills| > 0 && |interests| > 0 ==> r == Join(skills, ' ') + " " + Join(interests, ' ')
    ensures interests == [] ==> r == Join(skills, ' ')
    ensures skills == [] ==> r == Join(interests, ' ')
    ensures skills == [] && interests == [] ==> r == ""
  {
    JoinPair(skills, interests, ' ');
    Join(skills + interests, ' ')
  }

  /** When no token holds a space, the query text splits back into exactly
      the skills followed by the interests. */
  lemma QueryTextSplits(skills: seq<string>, interests: seq<string>)
    requires |skills + interests| > 0
    requires forall k :: 0 <= k < |skills + interests| ==> Excludes((skills + interests)[k], ' ')
    ensures Split(QueryText(skills, interests), ' ') == skills + interests
  {
    SplitJoin(skills + interests, ' ');
  }
}
