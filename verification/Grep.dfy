/** grep's patterns as languages, and the Kernighan and Pike matcher that searches for them. */
module Grep {
  // ---- what a pattern means ----

  /** One piece of a pattern; End is a $ that closes it. */
  datatype Item = One(c: char) | Star(c: char) | End

  /** A star is looked for before a closing $, so "$*" is a starred dollar. */
  function Parse(re: string): seq<Item> {
    if re == "" then []
    else if |re| >= 2 && re[1] == '*' then [Star(re[0])] + Parse(re[2..])
    else if re == "$" then [End]
    else [One(re[0])] + Parse(re[1..])
  }

  predicate Fits(c: char, x: char) {
    c == '.' || c == x
  }

  predicate AllFit(c: char, w: string) {
    forall j :: 0 <= j < |w| ==> Fits(c, w[j])
  }

  /** The strings of an item. */
  predicate InItem(item: Item, w: string) {
    match item
    case One(c) => |w| == 1 && Fits(c, w[0])
    case Star(c) => AllFit(c, w)
    case End => w == ""
  }

  function Join(ws: seq<string>): string {
    if ws == [] then "" else ws[0] + Join(ws[1..])
  }

  predicate Anchored(items: seq<Item>) {
    items != [] && items[|items| - 1] == End
  }

  /** The pieces spell the items out at the start of the text, and up to its end if the pattern is anchored there. */
  ghost predicate Spells(items: seq<Item>, ws: seq<string>, text: string) {
    && |ws| == |items| && (forall k :: 0 <= k < |items| ==> InItem(items[k], ws[k]))
    && Join(ws) <= text && (Anchored(items) ==> Join(ws) == text)
  }

  /** The text starts with a string of the pattern. */
  ghost predicate Begins(items: seq<Item>, text: string) {
    exists ws :: Spells(items, ws, text)
  }

  /** The text contains a string of the pattern; a leading ^ asks for it at the start. */
  ghost predicate Occurs(re: string, text: string) {
    if re != "" && re[0] == '^' then Begins(Parse(re[1..]), text)
    else exists i :: 0 <= i <= |text| && Begins(Parse(re), text[i..])
  }

  // ---- the meaning, item by item ----

  lemma SpellsRest(item: Item, rest: seq<Item>, ws: seq<string>, text: string)
    requires Spells([item] + rest, ws, text)
    ensures |ws| == |rest| + 1 && InItem(item, ws[0]) && ws[0] <= text
    ensures rest != [] ==> Spells(rest, ws[1..], text[|ws[0]|..])
  {
    var items := [item] + rest;
    assert items[0] == item;
    assert Join(ws) == ws[0] + Join(ws[1..]);
    forall k | 0 <= k < |rest|
      ensures InItem(rest[k], ws[1..][k])
    {
      assert items[k + 1] == rest[k];
    }
    if Join(ws) == text {
      assert text[|ws[0]|..] == Join(ws[1..]);
    }
  }

  lemma SpellsMore(item: Item, rest: seq<Item>, w: string, ws: seq<string>, text: string)
    requires item != End && InItem(item, w) && w <= text && Spells(rest, ws, text[|w|..])
    ensures Spells([item] + rest, [w] + ws, text)
  {
    var items, vs := [item] + rest, [w] + ws;
    assert vs[1..] == ws && Join(vs) == w + Join(ws);
    forall k | 0 <= k < |items|
      ensures InItem(items[k], vs[k])
    {
      if k > 0 {
        assert items[k] == rest[k - 1] && vs[k] == ws[k - 1];
      }
    }
    assert text == w + text[|w|..];
  }

  lemma BeginsNothing(text: string)
    ensures Begins([], text)
  {
    assert Spells([], [], text);
  }

  lemma BeginsEnd(text: string)
    ensures Begins([End], text) <==> text == ""
  {
    if text == "" {
      assert Join([""]) == "" + Join([]);
      assert Spells([End], [""], text);
    }
    if Begins([End], text) {
      var ws :| Spells([End], ws, text);
      SpellsRest(End, [], ws, text);
      assert ws[1..] == [];
      assert Join(ws) == ws[0] + Join(ws[1..]);
    }
  }

  /** An item before others takes one string of its own off the text. */
  lemma BeginsItem(item: Item, rest: seq<Item>, text: string)
    requires item != End
    ensures Begins([item] + rest, text) <==>
            exists k :: 0 <= k <= |text| && InItem(item, text[..k]) && Begins(rest, text[k..])
  {
    if Begins([item] + rest, text) {
      var ws :| Spells([item] + rest, ws, text);
      SpellsRest(item, rest, ws, text);
      var k := |ws[0]|;
      assert ws[0] == text[..k];
      if rest == [] {
        BeginsNothing(text[k..]);
      } else {
        assert Spells(rest, ws[1..], text[k..]);
      }
    }
    if k :| 0 <= k <= |text| && InItem(item, text[..k]) && Begins(rest, text[k..]) {
      var ws :| Spells(rest, ws, text[k..]);
      SpellsMore(item, rest, text[..k], ws, text);
    }
  }

  lemma BeginsOne(c: char, rest: seq<Item>, text: string)
    ensures Begins([One(c)] + rest, text) <==> text != "" && Fits(c, text[0]) && Begins(rest, text[1..])
  {
    BeginsItem(One(c), rest, text);
    if text != "" {
      assert InItem(One(c), text[..1]) <==> Fits(c, text[0]);
    }
  }

  // ---- the laws of patterns, as they are written ----

  /** The empty pattern is everywhere, and $ alone only at the end. */
  lemma EndLaw(text: string)
    ensures Begins(Parse(""), text) && (Begins(Parse("$"), text) <==> text == "")
  {
    BeginsNothing(text);
    BeginsEnd(text);
  }

  /** A character that is neither starred nor a closing $ takes one character: itself, or any if it is a dot. */
  lemma CharLaw(c: char, re: string, text: string)
    requires re == "" || re[0] != '*'
    requires c != '$' || re != ""
    ensures Begins(Parse([c] + re), text) <==> text != "" && (c == '.' || c == text[0]) && Begins(Parse(re), text[1..])
  {
    var whole := [c] + re;
    assert whole[0] == c && whole[1..] == re;
    assert whole != "$" && (|whole| < 2 || whole[1] != '*');
    assert Parse(whole) == [One(c)] + Parse(re);
    BeginsOne(c, Parse(re), text);
  }

  /** A starred one takes nothing, or one character and the rest as before. */
  lemma StarLaw(c: char, re: string, text: string)
    ensures Begins(Parse([c, '*'] + re), text) <==>
            Begins(Parse(re), text) || (text != "" && (c == '.' || c == text[0]) && Begins(Parse([c, '*'] + re), text[1..]))
  {
    assert ([c, '*'] + re)[2..] == re;
    var rest := Parse(re);
    BeginsItem(Star(c), rest, text);
    assert text[..0] == "" && text[0..] == text;
    if text != "" {
      BeginsItem(Star(c), rest, text[1..]);
      forall k | 1 <= k <= |text|
        ensures text[k..] == text[1..][k - 1..]
        ensures AllFit(c, text[..k]) <==> Fits(c, text[0]) && AllFit(c, text[1..][..k - 1])
      {
        assert text[..k] == [text[0]] + text[1..][..k - 1];
      }
      if Fits(c, text[0]) && Begins([Star(c)] + rest, text[1..]) {
        var k :| 0 <= k <= |text[1..]| && InItem(Star(c), text[1..][..k]) && Begins(rest, text[1..][k..]);
        assert InItem(Star(c), text[..k + 1]) && Begins(rest, text[k + 1..]);
      }
      if k :| 1 <= k <= |text| && InItem(Star(c), text[..k]) && Begins(rest, text[k..]) {
        assert InItem(Star(c), text[1..][..k - 1]) && Begins(rest, text[1..][k - 1..]);
      }
    }
  }

  /** After ^ the pattern begins the text; any other begins it or occurs further on. */
  lemma OccursLaw(re: string, text: string)
    ensures Occurs("^" + re, text) <==> Begins(Parse(re), text)
    ensures re == "" || re[0] != '^' ==>
              (Occurs(re, text) <==> Begins(Parse(re), text) || (text != "" && Occurs(re, text[1..])))
  {
    assert ("^" + re)[1..] == re && text[0..] == text;
    if text != "" && (re == "" || re[0] != '^') {
      forall i | 1 <= i <= |text|
        ensures text[i..] == text[1..][i - 1..]
      {
      }
      if i :| 0 <= i <= |text[1..]| && Begins(Parse(re), text[1..][i..]) {
        assert Begins(Parse(re), text[i + 1..]);
      }
      if i :| 1 <= i <= |text| && Begins(Parse(re), text[i..]) {
        assert Begins(Parse(re), text[1..][i - 1..]);
      }
    }
  }

  // ---- patterns without special characters ----

  predicate Plain(re: string) {
    forall j :: 0 <= j < |re| ==> re[j] !in ".*$^"
  }

  lemma {:induction false} BeginsPlain(re: string, text: string)
    requires Plain(re)
    ensures Begins(Parse(re), text) <==> re <= text
  {
    if re == "" {
      BeginsNothing(text);
    } else {
      BeginsOne(re[0], Parse(re[1..]), text);
      if text != "" {
        BeginsPlain(re[1..], text[1..]);
        assert re == [re[0]] + re[1..] && text == [text[0]] + text[1..];
      }
    }
  }

  lemma {:induction false} BeginsPlainEnd(re: string, text: string)
    requires Plain(re)
    ensures Begins(Parse(re + "$"), text) <==> re == text
  {
    if re == "" {
      assert re + "$" == "$";
      BeginsEnd(text);
    } else {
      assert (re + "$")[1..] == re[1..] + "$";
      BeginsOne(re[0], Parse(re[1..] + "$"), text);
      if text != "" {
        BeginsPlainEnd(re[1..], text[1..]);
        assert re == [re[0]] + re[1..] && text == [text[0]] + text[1..];
      }
    }
  }

  /** A plain pattern is looked for as a substring. */
  lemma PlainIsSubstring(re: string, text: string)
    requires Plain(re)
    ensures Occurs(re, text) <==> exists i :: 0 <= i <= |text| && re <= text[i..]
  {
    forall i | 0 <= i <= |text|
      ensures Begins(Parse(re), text[i..]) <==> re <= text[i..]
    {
      BeginsPlain(re, text[i..]);
    }
  }

  /** Between ^ and $ it is the whole line. */
  lemma PlainLine(re: string, text: string)
    requires Plain(re)
    ensures Occurs("^" + re + "$", text) <==> text == re
  {
    assert ("^" + re + "$")[1..] == re + "$";
    BeginsPlainEnd(re, text);
  }

  // ---- the matcher ----

  method Match(re: string, text: string) returns (found: bool)
    ensures found <==> Occurs(re, text)
  {
    if re != "" && re[0] == '^' {
      found := MatchHere(re[1..], text);
      return;
    }
    var i, more := 0, true;
    while more
      invariant 0 <= i <= |text| + 1 && (more <==> i <= |text|)
      invariant forall j :: 0 <= j < i ==> !Begins(Parse(re), text[j..])
      decreases |text| + 1 - i
    {
      found := MatchHere(re, text[i..]);
      if found {
        return;
      }
      more := i < |text|;
      i := i + 1;
    }
    found := false;
  }

  /** Is there a string of re at the start of the text? */
  method MatchHere(re: string, text: string) returns (found: bool)
    ensures found <==> Begins(Parse(re), text)
    decreases |re|, 0
  {
    if re == "" {
      BeginsNothing(text);
      return true;
    }
    if |re| >= 2 && re[1] == '*' {
      found := MatchStar(re[0], re[2..], text);
      return;
    }
    if re == "$" {
      BeginsEnd(text);
      return text == "";
    }
    BeginsOne(re[0], Parse(re[1..]), text);
    if text != "" && (re[0] == '.' || re[0] == text[0]) {
      found := MatchHere(re[1..], text[1..]);
      return;
    }
    return false;
  }

  /** Are there any number of c, then a string of re, at the start of the text? */
  method MatchStar(c: char, re: string, text: string) returns (found: bool)
    ensures found <==> Begins([Star(c)] + Parse(re), text)
    decreases |re|, 1
  {
    BeginsItem(Star(c), Parse(re), text);
    var k, more := 0, true;
    while more
      invariant k <= |text|
      invariant forall j :: 0 <= j < k ==> !Begins(Parse(re), text[j..])
      invariant more ==> AllFit(c, text[..k])
      invariant !more ==> forall j :: 0 <= j <= |text| && AllFit(c, text[..j]) ==> !Begins(Parse(re), text[j..])
      decreases |text| - k, more
    {
      found := MatchHere(re, text[k..]);
      if found {
        assert InItem(Star(c), text[..k]);
        return;
      }
      if k < |text| {
        more := text[k] == c || c == '.';
        assert forall j :: k < j <= |text| ==> text[..j][k] == text[k];
        k := k + 1;
      } else {
        more := false;
      }
    }
    assert forall j :: 0 <= j <= |text| && InItem(Star(c), text[..j]) ==> AllFit(c, text[..j]);
    found := false;
  }
}
