/**
 * The aside formatter `format_sarcastic_response` (app.py).
 *
 * The source uses the regular expression `<sarcasm>(.*?)</sarcasm>` with DOTALL:
 * `findall` collects the contents of the matches, `sub('', ...)` deletes them.
 * Both scan the same way: at each position, left to right, the pattern matches
 * when an opening tag starts there and a closing tag follows somewhere after it;
 * the content ends at the FIRST closing tag (non-greedy) and may hold any
 * character, newlines included; scanning resumes after that closing tag.
 * `Tokenize` is that scan, written out: the response becomes a sequence of
 * pieces, each a character kept in the answer or a whole matched aside.
 */
module Sarcasm {
  import opened Wrappers
  import opened Text

  const Open: string := "<sarcasm>"
  const Close: string := "</sarcasm>"

  /** The marker that introduces each aside in the reply (U+1F4AD, thought balloon). */
  const Balloon: string := "\U{1F4AD}"

  datatype Piece = Plain(c: char) | Aside(content: string)

  function RenderPiece(p: Piece): string {
    match p
    case Plain(c) => [c]
    case Aside(t) => Open + t + Close
  }

  /** The text a sequence of pieces stands for. */
  function Render(ps: seq<Piece>): string
    decreases |ps|
  {
    if ps == [] then [] else RenderPiece(ps[0]) + Render(ps[1..])
  }

  lemma RenderCons(p: Piece, ps: seq<Piece>)
    ensures Render([p] + ps) == RenderPiece(p) + Render(ps)
  {
    assert ([p] + ps)[1..] == ps;
  }

  /** The pattern matches at the start of `s`. */
  predicate MatchesAt(s: string) {
    |Open| <= |s| && s[..|Open|] == Open && Find(s[|Open|..], Close).Some?
  }

  /** The pattern matches somewhere in `s`. */
  predicate HasMatch(s: string) {
    exists i | 0 <= i < |s| :: MatchesAt(s[i..])
  }

  /** Pieces as a leftmost, non-greedy scan produces them: a kept character is
      never the start of a match, and an aside's content holds no closing tag. */
  predicate WellFormed(ps: seq<Piece>)
    decreases |ps|
  {
    ps == [] ||
    (&& (match ps[0]
         case Plain(_) => !MatchesAt(Render(ps))
         case Aside(t) => !Contains(t, Close))
     && WellFormed(ps[1..]))
  }

  lemma WellFormedCons(p: Piece, ps: seq<Piece>)
    ensures WellFormed([p] + ps) <==>
            (&& (match p
                 case Plain(_) => !MatchesAt(Render([p] + ps))
                 case Aside(t) => !Contains(t, Close))
             && WellFormed(ps))
  {
    assert ([p] + ps)[1..] == ps;
  }

  /** Content up to the first closing tag holds no closing tag. */
  lemma ContentHasNoClose(body: string, k: nat)
    requires Find(body, Close) == Some(k)
    ensures !Contains(body[..k], Close)
  {
    if Contains(body[..k], Close) {
      var j :| 0 <= j <= k && OccursAt(body[..k], Close, j);
      OccursInSlice(body, Close, 0, k, j);
    }
  }

  /** A match splits the text into opening tag, content, first closing tag and the rest. */
  lemma MatchSplits(s: string)
    requires MatchesAt(s)
    ensures var body := s[|Open|..];
            var k := Find(body, Close).value;
            && k + |Close| <= |body|
            && s == Open + body[..k] + Close + body[k + |Close|..]
            && !Contains(body[..k], Close)
  {
    var body := s[|Open|..];
    var k := Find(body, Close).value;
    ContentHasNoClose(body, k);
    SplitAround(body, Close, k);
    assert s == s[..|Open|] + body;
  }

  /** The regular-expression scan of the response (`findall` and `sub` together). */
  function Tokenize(s: string): (r: seq<Piece>)
    ensures Render(r) == s
    ensures WellFormed(r)
    decreases |s|
  {
    if s == [] then []
    else if MatchesAt(s) then
      var body := s[|Open|..];
      var k := Find(body, Close).value;
      MatchSplits(s);
      var rest := Tokenize(body[k + |Close|..]);
      RenderCons(Aside(body[..k]), rest);
      WellFormedCons(Aside(body[..k]), rest);
      [Aside(body[..k])] + rest
    else
      var rest := Tokenize(s[1..]);
      RenderCons(Plain(s[0]), rest);
      WellFormedCons(Plain(s[0]), rest);
      assert s == [s[0]] + s[1..];
      [Plain(s[0])] + rest
  }

  /** In `t + Close + rest`, where `t` holds no closing tag, the first closing tag
      is the one right after `t`: a closing tag cannot overlap another one,
      because `<` occurs in it only at its start. */
  lemma FirstCloseAfter(t: string, rest: string)
    requires !Contains(t, Close)
    ensures Find(t + Close + rest, Close) == Some(|t|)
  {
    var x := t + Close + rest;
    assert OccursAt(x, Close, |t|) by { assert x[|t|..|t| + |Close|] == Close; }
    forall j | 0 <= j < |t| ensures !OccursAt(x, Close, j) {
      if j + |Close| <= |t| {
        assert x[j..j + |Close|] == t[j..j + |Close|];
        assert !OccursAt(t, Close, j);
      } else {
        var d := |t| - j;
        assert 0 < d < |Close|;
        assert x[|t|] == '<';
        assert Close[d] != '<';
        assert x[j..j + |Close|][d] == x[|t|];
      }
    }
  }

  /** The scan keeps a character that does not start a match. */
  lemma TokenizePlainStep(c: char, tail: string)
    requires !MatchesAt([c] + tail)
    ensures Tokenize([c] + tail) == [Plain(c)] + Tokenize(tail)
  {
    assert ([c] + tail)[1..] == tail;
  }

  /** The scan lifts out a tagged aside whose content holds no closing tag. */
  lemma TokenizeAsideStep(t: string, tail: string)
    requires !Contains(t, Close)
    ensures Tokenize(Open + t + Close + tail) == [Aside(t)] + Tokenize(tail)
  {
    var s := Open + t + Close + tail;
    var body := s[|Open|..];
    assert s[..|Open|] == Open;
    assert body == t + Close + tail;
    FirstCloseAfter(t, tail);
    assert body[..|t|] == t;
    assert body[|t| + |Close|..] == tail;
  }

  /** Leftmost, non-greedy matching is the ONLY well-formed reading of a text:
      any well-formed pieces are exactly what the scan returns for their text. */
  lemma {:induction false} TokenizeUnique(ps: seq<Piece>)
    requires WellFormed(ps)
    ensures Tokenize(Render(ps)) == ps
    decreases |ps|
  {
    if ps != [] {
      var tail := Render(ps[1..]);
      RenderCons(ps[0], ps[1..]);
      assert ps == [ps[0]] + ps[1..];
      TokenizeUnique(ps[1..]);
      match ps[0]
      case Plain(c) =>
        TokenizePlainStep(c, tail);
      case Aside(t) =>
        TokenizeAsideStep(t, tail);
    }
  }

  /** The characters kept in the answer: the response minus every match, tags included. */
  function Remainder(ps: seq<Piece>): string
    decreases |ps|
  {
    if ps == [] then []
    else (match ps[0] case Plain(c) => [c] case Aside(_) => []) + Remainder(ps[1..])
  }

  /** The contents of the matches, in order (`findall`). */
  function Asides(ps: seq<Piece>): seq<string>
    decreases |ps|
  {
    if ps == [] then []
    else (match ps[0] case Plain(_) => [] case Aside(t) => [t]) + Asides(ps[1..])
  }

  /** The rendering of one trimmed aside after the answer. */
  function Block(thought: string): string {
    "\n\n" + Balloon + " _" + thought + "_"
  }

  function Blocks(thoughts: seq<string>): (r: seq<string>)
    ensures |r| == |thoughts|
  {
    if thoughts == [] then [] else [Block(thoughts[0])] + Blocks(thoughts[1..])
  }

  /** Block `i` is the block of aside `i`. */
  lemma {:induction false} BlockOf(thoughts: seq<string>, i: nat)
    requires i < |thoughts|
    ensures Blocks(thoughts)[i] == Block(thoughts[i])
    decreases i
  {
    if i > 0 {
      BlockOf(thoughts[1..], i - 1);
    }
  }

  /** What is kept and what is extracted, for a first piece and the rest. */
  lemma SplitCons(p: Piece, ps: seq<Piece>)
    ensures Remainder([p] + ps) == (match p case Plain(c) => [c] case Aside(_) => []) + Remainder(ps)
    ensures Asides([p] + ps) == (match p case Plain(_) => [] case Aside(t) => [t]) + Asides(ps)
  {
    assert ([p] + ps)[1..] == ps;
  }

  /** `format_sarcastic_response`: the answer with the asides removed and trimmed,
      then one block per aside. */
  function Format(response: string): (r: string)
    ensures var clean := Strip(Remainder(Tokenize(response)));
            |clean| <= |r| && r[..|clean|] == clean
  {
    var ps := Tokenize(response);
    Reply(Strip(Remainder(ps)), StripEach(Asides(ps)))
  }

  /** The trimmed answer followed by one block per trimmed aside, if there are any. */
  function Reply(clean: string, asides: seq<string>): string {
    if asides != [] then clean + Concat(Blocks(asides)) else clean
  }

  /** No complete tag pair: nothing is extracted and every character is kept. */
  lemma {:induction false} NoMatchKeepsAll(s: string)
    requires !HasMatch(s)
    ensures Asides(Tokenize(s)) == [] && Remainder(Tokenize(s)) == s
    decreases |s|
  {
    if s != [] {
      assert s[0..] == s;
      assert !MatchesAt(s);
      assert !HasMatch(s[1..]) by {
        forall i | 0 <= i < |s[1..]| ensures !MatchesAt(s[1..][i..]) {
          assert s[1..][i..] == s[i + 1..];
        }
      }
      NoMatchKeepsAll(s[1..]);
    }
  }

  /** A complete tag pair somewhere: at least one aside is extracted. */
  lemma {:induction false} MatchGivesAside(s: string)
    requires HasMatch(s)
    ensures Asides(Tokenize(s)) != []
    decreases |s|
  {
    if !MatchesAt(s) {
      var i :| 0 <= i < |s| && MatchesAt(s[i..]);
      assert i != 0 by { assert s[0..] == s; }
      assert s[1..][i - 1..] == s[i..];
      assert HasMatch(s[1..]);
      MatchGivesAside(s[1..]);
    }
  }

  /** Asides are extracted exactly when the response holds a complete tag pair. */
  lemma MatchIffAside(s: string)
    ensures HasMatch(s) <==> Asides(Tokenize(s)) != []
  {
    if HasMatch(s) { MatchGivesAside(s); } else { NoMatchKeepsAll(s); }
  }

  /** Without a complete tag pair the reply is the response, trimmed. */
  lemma FormatWithoutMatch(s: string)
    requires !HasMatch(s)
    ensures Format(s) == Strip(s)
  {
    NoMatchKeepsAll(s);
  }

  /** No extracted content contains a closing tag. */
  lemma {:induction false} AsidesHoldNoClose(ps: seq<Piece>)
    requires WellFormed(ps)
    ensures forall a | a in Asides(ps) :: !Contains(a, Close)
    decreases |ps|
  {
    if ps != [] {
      AsidesHoldNoClose(ps[1..]);
    }
  }

  /** In `r`, the block of aside `i` comes right after `clean` and the blocks of
      asides `0..i-1`. */
  predicate BlockFollows(r: string, clean: string, asides: seq<string>, i: nat)
    requires i < |asides|
  {
    OccursAt(r, Blocks(asides)[i], |clean| + TotalLength(Blocks(asides)[..i]))
  }

  /** In `clean` followed by the blocks, block `i` follows blocks `0..i-1`. */
  lemma BlockAt(clean: string, asides: seq<string>, i: nat)
    requires i < |asides|
    ensures BlockFollows(Reply(clean, asides), clean, asides, i)
  {
    var blocks := Blocks(asides);
    var k := |clean| + TotalLength(blocks[..i]);
    assert Reply(clean, asides) == clean + Concat(blocks) by {
      ReplyWithAsides(clean, asides);
    }
    assert OccursAt(clean + Concat(blocks), blocks[i], k) by {
      ConcatAtAfter(clean, blocks, i);
    }
  }

  lemma ReplyWithAsides(clean: string, asides: seq<string>)
    requires asides != []
    ensures Reply(clean, asides) == clean + Concat(Blocks(asides))
  {
  }

  /** After the trimmed answer, block `i` renders the `i`-th aside and follows blocks `0..i-1`. */
  lemma FormatBlockAt(s: string, i: nat)
    requires i < |Asides(Tokenize(s))|
    ensures var thoughts := StripEach(Asides(Tokenize(s)));
            && Blocks(thoughts)[i] == Block(Strip(Asides(Tokenize(s))[i]))
            && BlockFollows(Format(s), Strip(Remainder(Tokenize(s))), thoughts, i)
  {
    var ps := Tokenize(s);
    var clean, thoughts := Strip(Remainder(ps)), StripEach(Asides(ps));
    assert Blocks(thoughts)[i] == Block(Strip(Asides(ps)[i])) by {
      BlockOf(thoughts, i);
      StripEachAt(Asides(ps), i);
    }
    assert Format(s) == Reply(clean, thoughts);
    BlockAt(clean, thoughts, i);
  }

  /** Nothing but the trimmed answer and the blocks: the reply is exactly as
      long as the trimmed answer and one block per aside together. */
  lemma FormatLength(s: string)
    ensures var ps := Tokenize(s);
            |Format(s)| == |Strip(Remainder(ps))| + TotalLength(Blocks(StripEach(Asides(ps))))
  {
    var ps := Tokenize(s);
    var clean, asides := Strip(Remainder(ps)), StripEach(Asides(ps));
    assert Format(s) == Reply(clean, asides);
    if asides == [] {
      assert Blocks(asides) == [];
    } else {
      ReplyWithAsides(clean, asides);
      ConcatLength(Blocks(asides));
    }
  }

  /** The pieces of a run of characters kept one by one, followed by `rest`. */
  function PlainsThen(t: string, rest: seq<Piece>): seq<Piece>
    decreases |t|
  {
    if t == [] then rest else [Plain(t[0])] + PlainsThen(t[1..], rest)
  }

  lemma {:induction false} PlainsRender(t: string, rest: seq<Piece>)
    ensures Render(PlainsThen(t, rest)) == t + Render(rest)
    decreases |t|
  {
    if t != [] {
      var more := PlainsThen(t[1..], rest);
      var r := Render(rest);
      PlainsRender(t[1..], rest);
      assert PlainsThen(t, rest) == [Plain(t[0])] + more;
      RenderCons(Plain(t[0]), more);
      assert Render([Plain(t[0])] + more) == [t[0]] + (t[1..] + r);
      assert [t[0]] + (t[1..] + r) == t + r by {
        assert t == [t[0]] + t[1..];
      }
    }
  }

  lemma {:induction false} PlainsKept(t: string, rest: seq<Piece>)
    ensures Remainder(PlainsThen(t, rest)) == t + Remainder(rest)
    ensures Asides(PlainsThen(t, rest)) == Asides(rest)
    decreases |t|
  {
    if t != [] {
      var more := PlainsThen(t[1..], rest);
      var r := Remainder(rest);
      PlainsKept(t[1..], rest);
      assert PlainsThen(t, rest) == [Plain(t[0])] + more;
      assert Remainder([Plain(t[0])] + more) == [t[0]] + (t[1..] + r)
          && Asides([Plain(t[0])] + more) == Asides(rest) by {
        SplitCons(Plain(t[0]), more);
        assert [] + Asides(more) == Asides(more);
      }
      assert [t[0]] + (t[1..] + r) == t + r by {
        assert t == [t[0]] + t[1..];
      }
    }
  }

  /** A run without `<` never starts a match. */
  lemma {:induction false} PlainsWellFormed(t: string, rest: seq<Piece>)
    requires forall i :: 0 <= i < |t| ==> t[i] != '<'
    requires WellFormed(rest)
    ensures WellFormed(PlainsThen(t, rest))
    decreases |t|
  {
    if t != [] {
      var more := PlainsThen(t[1..], rest);
      PlainsWellFormed(t[1..], rest);
      WellFormedCons(Plain(t[0]), more);
      RenderCons(Plain(t[0]), more);
      var x := Render([Plain(t[0])] + more);
      assert x[0] == t[0];
      assert !MatchesAt(x) by {
        if |Open| <= |x| { assert x[..|Open|][0] != Open[0]; }
      }
    }
  }

  /** An aside may span lines: the newline stays in the extracted content. */
  lemma MultilineAside()
    ensures Tokenize(Open + "a\nb" + Close) == [Aside("a\nb")]
  {
    var ps := [Aside("a\nb")];
    assert !Contains("a\nb", Close);
    assert Render(ps) == Open + "a\nb" + Close;
    TokenizeUnique(ps);
  }

  /** Text without `<`, then a tagged aside: the scan keeps the text character by
      character and lifts out the aside, then goes on with the rest. */
  lemma TextThenAsidePieces(t: string, a: string, tail: string)
    requires forall i :: 0 <= i < |t| ==> t[i] != '<'
    requires !Contains(a, Close)
    ensures Tokenize(t + Open + a + Close + tail) == PlainsThen(t, [Aside(a)] + Tokenize(tail))
  {
    var rest := Tokenize(tail);
    var middle := [Aside(a)] + rest;
    RenderCons(Aside(a), rest);
    WellFormedCons(Aside(a), rest);
    var ps := PlainsThen(t, middle);
    PlainsRender(t, middle);
    PlainsWellFormed(t, middle);
    assert RenderPiece(Aside(a)) == Open + a + Close;
    assert Render(middle) == Open + a + Close + tail;
    RegroupAside(t, Open, a, Close, tail);
    TokenizeUnique(ps);
  }

  /** Text without `<`, then a tagged aside: the text is kept and the aside is
      extracted, ahead of whatever the rest of the response gives. */
  lemma TextThenAside(t: string, a: string, tail: string)
    requires forall i :: 0 <= i < |t| ==> t[i] != '<'
    requires !Contains(a, Close)
    ensures Remainder(Tokenize(t + Open + a + Close + tail)) == t + Remainder(Tokenize(tail))
    ensures Asides(Tokenize(t + Open + a + Close + tail)) == [a] + Asides(Tokenize(tail))
  {
    var rest := Tokenize(tail);
    TextThenAsidePieces(t, a, tail);
    SplitCons(Aside(a), rest);
    PlainsKept(t, [Aside(a)] + rest);
    assert [] + Remainder(rest) == Remainder(rest);
  }

  /** The empty tails met while scanning two asides. */
  lemma TwoAsidesTails(second: string, t2: string, a1: string, a2: string)
    ensures second + [] == second
    ensures Asides(Tokenize([])) == [] && Remainder(Tokenize([])) == []
    ensures [a1] + ([a2] + []) == [a1, a2]
    ensures t2 + [] == t2
  {
    assert Tokenize([]) == [];
  }

  /** A text followed by a tagged aside and a tail, regrouped to the left. */
  lemma RegroupAside(t: string, o: string, a: string, c: string, tail: string)
    ensures t + (o + a + c + tail) == t + o + a + c + tail
  {
  }

  /** The scan of a response with two asides. */
  lemma TwoAsidesScan(t1: string, a1: string, t2: string, a2: string)
    requires forall i :: 0 <= i < |t1| ==> t1[i] != '<'
    requires forall i :: 0 <= i < |t2| ==> t2[i] != '<'
    requires !Contains(a1, Close) && !Contains(a2, Close)
    ensures var ps := Tokenize(t1 + Open + a1 + Close + t2 + Open + a2 + Close);
            Remainder(ps) == t1 + t2 && Asides(ps) == [a1, a2]
  {
    var second := t2 + Open + a2 + Close;
    TextThenAside(t2, a2, []);
    TwoAsidesTails(second, t2, a1, a2);
    TextThenAside(t1, a1, second);
    RegroupAside(t1 + Open + a1 + Close, t2, Open, a2, Close);
  }

  /** Two asides are lifted out of the answer and appended, trimmed, in their
      order, after the trimmed remaining text. */
  lemma TwoAsides(t1: string, a1: string, t2: string, a2: string)
    requires forall i :: 0 <= i < |t1| ==> t1[i] != '<'
    requires forall i :: 0 <= i < |t2| ==> t2[i] != '<'
    requires !Contains(a1, Close) && !Contains(a2, Close)
    ensures Format(t1 + Open + a1 + Close + t2 + Open + a2 + Close)
         == Strip(t1 + t2) + Block(Strip(a1)) + Block(Strip(a2))
  {
    var ps := Tokenize(t1 + Open + a1 + Close + t2 + Open + a2 + Close);
    var clean, thoughts := Strip(t1 + t2), StripEach(Asides(ps));
    assert Strip(Remainder(ps)) == clean && Asides(ps) == [a1, a2] by {
      TwoAsidesScan(t1, a1, t2, a2);
    }
    assert thoughts[0] == Strip(a1) by {
      StripEachAt(Asides(ps), 0);
    }
    assert thoughts[1] == Strip(a2) by {
      StripEachAt(Asides(ps), 1);
    }
    assert Reply(clean, thoughts) == clean + Block(thoughts[0]) + Block(thoughts[1]) by {
      ReplyTwo(clean, thoughts);
    }
  }

  lemma ReplyTwo(clean: string, thoughts: seq<string>)
    requires |thoughts| == 2
    ensures Reply(clean, thoughts) == clean + Block(thoughts[0]) + Block(thoughts[1])
  {
    var b1, b2 := Block(thoughts[0]), Block(thoughts[1]);
    assert Reply(clean, thoughts) == clean + Concat(Blocks(thoughts)) by {
      ReplyWithAsides(clean, thoughts);
    }
    assert Blocks(thoughts) == [b1, b2] by {
      BlocksTwo(thoughts);
    }
    assert clean + Concat([b1, b2]) == clean + b1 + b2 by {
      ConcatTwoAfter(clean, b1, b2);
    }
  }

  lemma BlocksTwo(thoughts: seq<string>)
    requires |thoughts| == 2
    ensures Blocks(thoughts) == [Block(thoughts[0]), Block(thoughts[1])]
  {
    var rest := thoughts[1..];
    assert rest[0] == thoughts[1] && rest[1..] == [];
    assert Blocks(rest) == [Block(rest[0])] + Blocks(rest[1..]);
  }
}
