/**
  Whole selectors run through `Parse`: what `$new` gives for a bare tag, for
  `tag.class`, for `[k]`, and for two brackets in a row, where the bracket
  scan's missing `break` makes the second bracket part of the first value.
 */
module SelectorExamples {
  import opened Wrappers
  import opened Strings
  import opened Templates
  import opened Selector

  /** The tokens of `[a=v1][b=v2]`. */
  function TwoBrackets(a: string, v1: string, b: string, v2: string): seq<string>
  {
    ["", "[", a, "=", v1, "]", "", "[", b, "=", v2, "]", ""]
  }

  lemma JoinSecondBracket(b: string, v2: string)
    ensures Join(["", "[", b, "=", v2], "") == "[" + (b + ("=" + v2))
  {
    var m := ["", "[", b, "=", v2];
    assert m[1..][1..][1..][1..] == [v2];
    assert Join(m[1..][1..][1..], "") == "=" + v2;
    assert Join(m[1..][1..], "") == b + ("=" + v2);
    assert Join(m[1..], "") == "[" + (b + ("=" + v2));
    assert Join(m, "") == "" + ("[" + (b + ("=" + v2)));
  }

  lemma FirstBracketScan(a: string, v1: string, b: string, v2: string)
    requires DelimiterFree(a) && DelimiterFree(v1)
    ensures ScanBracket(TwoBrackets(a, v1, b, v2), 2, Scan(None, None, 1)) == ScanBracket(TwoBrackets(a, v1, b, v2), 6, Scan(Some(a), Some(StripQuotes(v1)), 5))
  {
    var ts := TwoBrackets(a, v1, b, v2);
    TextIsNotOperator(a);
    TextIsNotOperator(v1);
    var keyed := Scan(Some(a), None, 3);
    var first := Scan(Some(a), Some(StripQuotes(v1)), 5);
    assert ts[2..3] == [a] && ts[4..5] == [v1];
    assert ScanBracket(ts, 2, Scan(None, None, 1)) == ScanBracket(ts, 3, Scan(None, None, 1));
    assert ScanBracket(ts, 3, Scan(None, None, 1)) == ScanBracket(ts, 4, keyed);
    assert ScanBracket(ts, 4, keyed) == ScanBracket(ts, 5, keyed);
    assert ScanBracket(ts, 5, keyed) == ScanBracket(ts, 6, first);
  }

  lemma SecondBracketScan(a: string, v1: string, b: string, v2: string)
    requires DelimiterFree(b) && DelimiterFree(v2)
    ensures ScanBracket(TwoBrackets(a, v1, b, v2), 6, Scan(Some(a), Some(StripQuotes(v1)), 5)) == Some(Scan(Some(a), Some(StripQuotes("[" + (b + ("=" + v2)))), 11))
  {
    var ts := TwoBrackets(a, v1, b, v2);
    TextIsNotOperator(b);
    TextIsNotOperator(v2);
    var first := Scan(Some(a), Some(StripQuotes(v1)), 5);
    assert ScanBracket(ts, 6, first) == ScanBracket(ts, 7, first);
    assert ScanBracket(ts, 7, first) == ScanBracket(ts, 8, first);
    assert ScanBracket(ts, 8, first) == ScanBracket(ts, 9, first);
    assert ScanBracket(ts, 9, first) == ScanBracket(ts, 10, first);
    assert ScanBracket(ts, 10, first) == ScanBracket(ts, 11, first);
    assert ts[6..11] == ["", "[", b, "=", v2];
    JoinSecondBracket(b, v2);
    var last := Scan(Some(a), Some(StripQuotes("[" + (b + ("=" + v2)))), 11);
    assert ScanBracket(ts, 11, first) == ScanBracket(ts, 12, last);
  }

  lemma TwoBracketsWalk(a: string, v1: string, b: string, v2: string)
    requires DelimiterFree(a) && DelimiterFree(v1) && DelimiterFree(b) && DelimiterFree(v2)
    ensures ParseTokens(TwoBrackets(a, v1, b, v2), 0, Blank()) == Some(Blank().(attributes := map[a := Some(StripQuotes("[" + (b + ("=" + v2))))]))
  {
    var ts := TwoBrackets(a, v1, b, v2);
    FirstBracketScan(a, v1, b, v2);
    SecondBracketScan(a, v1, b, v2);
    var t := Blank().(attributes := map[a := Some(StripQuotes("[" + (b + ("=" + v2))))]);
    assert ParseTokens(ts, 0, Blank()) == ParseTokens(ts, 1, Blank());
    assert ParseTokens(ts, 1, Blank()) == ParseTokens(ts, 12, t);
  }

  /** The compound `[a=v1][b=v2]` as a string. */
  function TwoBracketsText(a: string, v1: string, b: string, v2: string): string
  {
    "[" + (a + ("=" + (v1 + ("]" + ("[" + (b + ("=" + (v2 + "]"))))))))
  }

  lemma JoinCons(x: string, xs: seq<string>)
    requires xs != []
    ensures Join([x] + xs, "") == x + Join(xs, "")
  {
    assert ([x] + xs)[1..] == xs;
  }

  /** Six tokens `"", "[", k, "=", v, "]"` in front of more tokens. */
  lemma JoinBracket(k: string, v: string, rest: seq<string>)
    requires rest != []
    ensures Join(["", "[", k, "=", v, "]"] + rest, "") == "[" + (k + ("=" + (v + ("]" + Join(rest, "")))))
  {
    var t5 := ["]"] + rest;
    JoinCons("]", rest);
    var t4 := [v] + t5;
    JoinCons(v, t5);
    var t3 := ["="] + t4;
    JoinCons("=", t4);
    var t2 := [k] + t3;
    JoinCons(k, t3);
    var t1 := ["["] + t2;
    JoinCons("[", t2);
    var t0 := [""] + t1;
    JoinCons("", t1);
    assert Join(t0, "") == Join(t1, "");
    assert t0 == ["", "[", k, "=", v, "]"] + rest;
  }

  lemma TwoBracketsJoin(a: string, v1: string, b: string, v2: string)
    ensures Join(TwoBrackets(a, v1, b, v2), "") == TwoBracketsText(a, v1, b, v2)
  {
    JoinBracket(b, v2, [""]);
    assert Join(["", "[", b, "=", v2, "]"] + [""], "") == "[" + (b + ("=" + (v2 + "]")));
    var rest := ["", "[", b, "=", v2, "]", ""];
    assert rest == ["", "[", b, "=", v2, "]"] + [""];
    JoinBracket(a, v1, rest);
    assert TwoBrackets(a, v1, b, v2) == ["", "[", a, "=", v1, "]"] + rest;
  }

  lemma TwoBracketsTokenize(a: string, v1: string, b: string, v2: string)
    requires DelimiterFree(a) && DelimiterFree(v1) && DelimiterFree(b) && DelimiterFree(v2)
    ensures Tokenize(TwoBracketsText(a, v1, b, v2)) == TwoBrackets(a, v1, b, v2)
  {
    var ts := TwoBrackets(a, v1, b, v2);
    assert Tokenized(ts);
    TwoBracketsJoin(a, v1, b, v2);
    TokenizeJoin(ts);
  }

  /**
    The scan does not stop at the first `]`: in `[a=v1][b=v2]` the second
    bracket's `]` ends the value of `a`, which becomes `[b=v2`, and `b` is
    never set.
   */
  lemma LaterBracketOverwritesValue(a: string, v1: string, b: string, v2: string)
    requires DelimiterFree(a) && DelimiterFree(v1) && DelimiterFree(b) && DelimiterFree(v2)
    requires ' ' !in a && ' ' !in v1 && ' ' !in b && ' ' !in v2
    ensures Parse(TwoBracketsText(a, v1, b, v2)) == Some(Blank().(attributes := map[a := Some("[" + (b + ("=" + v2)))]))
  {
    var text := TwoBracketsText(a, v1, b, v2);
    assert ' ' !in text && text[0] == '[' && text[|text| - 1] == ']';
    ParseCompound(text);
    TwoBracketsTokenize(a, v1, b, v2);
    TwoBracketsWalk(a, v1, b, v2);
    var value := "[" + (b + ("=" + v2));
    assert StripQuotes(value) == value;
  }

  /** A compound with no delimiter is a single text token. */
  lemma TokenizeBare(t: string)
    requires DelimiterFree(t)
    ensures Tokenize(t) == [t]
  {
    TokenizeText(t, "");
    assert t + "" == t;
  }

  /** A compound with no delimiter is a tag name, whatever else it contains (`#` included). */
  lemma BareTokenIsTag(t: string)
    requires t != [] && DelimiterFree(t) && ' ' !in t
    requires !IsWhitespace(t[0]) && !IsWhitespace(t[|t| - 1])
    ensures Parse(t) == Some(Blank().(tagName := t))
  {
    ParseCompound(t);
    TokenizeBare(t);
    TextIsNotOperator(t);
    assert ParseTokens([t], 0, Blank()) == ParseTokens([t], 1, Blank().(tagName := t));
  }

  lemma TokenizeTagClass(tag: string, name: string)
    requires DelimiterFree(tag) && DelimiterFree(name)
    ensures Tokenize(tag + ("." + name)) == [tag, ".", name]
  {
    var ts := [tag, ".", name];
    assert Tokenized(ts);
    assert Join(ts, "") == tag + ("." + name) by {
      assert ts[1..][1..] == [name];
    }
    TokenizeJoin(ts);
  }

  lemma WalkTagClass(tag: string, name: string)
    requires tag != [] && DelimiterFree(tag) && DelimiterFree(name) && ' ' !in name
    requires name != [] && !IsWhitespace(name[0]) && !IsWhitespace(name[|name| - 1])
    ensures ParseTokens([tag, ".", name], 0, Blank()) == Some(Blank().(tagName := tag, classList := [name]))
  {
    var ts := [tag, ".", name];
    TextIsNotOperator(tag);
    TextIsNotOperator(name);
    SplitWithoutSeparator(name, ' ');
    TrimUnchanged(name);
    assert AddClasses([], [name]) == [name];
    var t := Blank().(tagName := tag);
    assert ParseTokens(ts, 0, Blank()) == ParseTokens(ts, 1, t);
    assert ParseTokens(ts, 1, t) == ParseTokens(ts, 3, t.(classList := [name]));
  }

  /** `tag.name` sets the tag and adds the one class `name`. */
  lemma TagAndClass(tag: string, name: string)
    requires tag != [] && DelimiterFree(tag) && ' ' !in tag
    requires name != [] && DelimiterFree(name) && ' ' !in name
    requires !IsWhitespace(tag[0]) && !IsWhitespace(name[0]) && !IsWhitespace(name[|name| - 1])
    ensures Parse(tag + ("." + name)) == Some(Blank().(tagName := tag, classList := [name]))
  {
    var text := tag + ("." + name);
    assert text[0] == tag[0] && text[|text| - 1] == name[|name| - 1];
    assert ' ' !in text;
    ParseCompound(text);
    TokenizeTagClass(tag, name);
    WalkTagClass(tag, name);
  }

  lemma TokenizeBracketKey(k: string)
    requires DelimiterFree(k)
    ensures Tokenize("[" + (k + "]")) == ["", "[", k, "]", ""]
  {
    var ts := ["", "[", k, "]", ""];
    assert Tokenized(ts);
    assert Join(ts, "") == "[" + (k + "]") by {
      assert ts[1..][1..][1..] == ["]", ""];
      assert Join(ts[1..][1..], "") == k + "]";
    }
    TokenizeJoin(ts);
  }

  lemma BracketKeyWalk(k: string)
    requires DelimiterFree(k)
    ensures ParseTokens(["", "[", k, "]", ""], 0, Blank()) == None
  {
    var ts := ["", "[", k, "]", ""];
    assert Tokenized(ts);
    TextIsNotOperator(k);
    assert Find(ts, 2, "]") == 3;
    assert Find(ts, 2, "=") > 3;
    BracketFails(ts, 1);
    assert ParseTokens(ts, 0, Blank()) == ParseTokens(ts, 1, Blank());
  }

  /** `[k]`, and `[]` with `k` empty: a `]` before any `=` makes `$new` return `null`. */
  lemma BracketWithoutValueIsNull(k: string)
    requires DelimiterFree(k) && ' ' !in k
    ensures Parse("[" + (k + "]")) == None
  {
    var text := "[" + (k + "]");
    assert ' ' !in text && text[0] == '[' && text[|text| - 1] == ']';
    ParseCompound(text);
    TokenizeBracketKey(k);
    BracketKeyWalk(k);
  }
}
