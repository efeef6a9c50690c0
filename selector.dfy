/**
  `$new(sel)` (blueprint.js:162-238): builds a template from a selector
  string. The input is trimmed and cut at its first space; the text after the
  space is parsed the same way and becomes the single child. The part before
  it (the compound) is split into tokens with the delimiters `. [ = ]` kept
  as tokens of their own, and the tokens are walked with a cursor: a bare
  token sets the tag, `.name` adds classes, and `[key=value]` sets an
  attribute. On some malformed brackets the result is `null` (here `None`).

  `Parse` states what `$new` computes; the method `New` walks the tokens with
  the cursor and the nested bracket scan of the source and is proved to
  produce exactly what `Parse` describes.
 */
module Selector {
  import opened Wrappers
  import opened Strings
  import opened Templates
  import Builder

  // ---------------------------------------------------------------------
  // Tokenizer: sel.split(/([.\[=\]])/g)

  /** The characters the split pattern at blueprint.js:170 matches. */
  predicate IsDelimiter(c: char)
  {
    c == '.' || c == '[' || c == '=' || c == ']'
  }

  predicate DelimiterFree(s: string)
  {
    forall i :: 0 <= i < |s| ==> !IsDelimiter(s[i])
  }

  predicate IsDelimiterToken(t: string)
  {
    |t| == 1 && IsDelimiter(t[0])
  }

  /**
    The shape a split with a capturing group produces: text and delimiter
    tokens alternate, starting and ending with a (possibly empty) text token.
   */
  predicate Tokenized(ts: seq<string>)
  {
    && |ts| % 2 == 1
    && forall i :: 0 <= i < |ts| ==> if i % 2 == 0 then DelimiterFree(ts[i]) else IsDelimiterToken(ts[i])
  }

  /** The split at blueprint.js:170: a text token, then delimiter and text tokens in turn. */
  function Tokenize(s: string): (ts: seq<string>)
    ensures |ts| % 2 == 1
  {
    if s == [] then [""]
    else
      var rest := Tokenize(s[1..]);
      if IsDelimiter(s[0]) then ["", [s[0]]] + rest
      else [[s[0]] + rest[0]] + rest[1..]
  }

  /** The split gives alternating text and delimiter tokens. */
  lemma {:induction false} TokenizeShape(s: string)
    ensures Tokenized(Tokenize(s))
  {
    if s != [] {
      var rest := Tokenize(s[1..]);
      TokenizeShape(s[1..]);
      var ts := Tokenize(s);
      forall i | 0 <= i < |ts|
        ensures if i % 2 == 0 then DelimiterFree(ts[i]) else IsDelimiterToken(ts[i])
      {
        if IsDelimiter(s[0]) {
          if i >= 2 {
            assert ts[i] == rest[i - 2];
          }
        } else if i >= 1 {
          assert ts[i] == rest[i];
        }
      }
    }
  }

  /** The tokens concatenate back to the compound. */
  lemma {:induction false} TokenizeConcat(s: string)
    ensures Join(Tokenize(s), "") == s
  {
    if s != [] {
      var rest := Tokenize(s[1..]);
      assert Join(rest, "") == s[1..] by {
        TokenizeConcat(s[1..]);
      }
      var ts := Tokenize(s);
      if IsDelimiter(s[0]) {
        assert ts[0] == "" && ts[1] == [s[0]] && ts[2..] == rest;
        JoinFirstTwo(ts);
        assert "" + ([s[0]] + s[1..]) == s;
      } else {
        assert Join(ts, "") == [s[0]] + Join(rest, "") by {
          JoinConsHead(s[0], rest, "");
        }
      }
    }
  }

  /** Text in front of the rest only extends the first token. */
  lemma {:induction false} TokenizeText(a: string, s: string)
    requires DelimiterFree(a)
    ensures Tokenize(a + s) == [a + Tokenize(s)[0]] + Tokenize(s)[1..]
    decreases |a|
  {
    if a != [] {
      assert (a + s)[1..] == a[1..] + s;
      TokenizeText(a[1..], s);
      assert [a[0]] + (a[1..] + Tokenize(s)[0]) == a + Tokenize(s)[0];
    } else {
      var t := Tokenize(s);
      assert a + s == s && a + t[0] == t[0] && [t[0]] + t[1..] == t;
    }
  }

  /** A delimiter in front adds an empty text token and the delimiter token. */
  lemma TokenizeDelimiter(d: string, s: string)
    requires IsDelimiterToken(d)
    ensures Tokenize(d + s) == ["", d] + Tokenize(s)
  {
    assert (d + s)[0] == d[0] && (d + s)[1..] == s && [d[0]] == d;
  }

  /** The concatenation of a token list with at least three tokens, split after the first two. */
  lemma JoinFirstTwo(ts: seq<string>)
    requires |ts| >= 3
    ensures Join(ts, "") == ts[0] + (ts[1] + Join(ts[2..], ""))
  {
    assert ts[1..][1..] == ts[2..];
    assert Join(ts[1..], "") == ts[1] + "" + Join(ts[2..], "");
  }

  /** The tokenizer recovers any alternating token list from its concatenation. */
  lemma {:induction false} TokenizeJoin(ts: seq<string>)
    requires Tokenized(ts)
    ensures Tokenize(Join(ts, "")) == ts
    decreases |ts|
  {
    if |ts| == 1 {
      TokenizeText(ts[0], "");
      assert ts[0] + "" == ts[0];
    } else {
      var rest := ts[2..];
      assert Tokenized(rest) by {
        assert forall i :: 0 <= i < |rest| ==> rest[i] == ts[i + 2];
      }
      TokenizeJoin(rest);
      JoinFirstTwo(ts);
      var u := ts[1] + Join(rest, "");
      assert Tokenize(u) == ["", ts[1]] + rest by {
        TokenizeDelimiter(ts[1], Join(rest, ""));
      }
      TokenizeText(ts[0], u);
      assert [ts[0] + ""] + ([ts[1]] + rest) == ts by {
        assert ts[0] + "" == ts[0];
      }
    }
  }

  /** A delimiter token sits at an odd position, so a text token follows it. */
  lemma DelimiterFollowedByText(ts: seq<string>, x: nat)
    requires Tokenized(ts) && x < |ts| && IsDelimiterToken(ts[x])
    ensures x % 2 == 1 && x + 1 < |ts| && DelimiterFree(ts[x + 1])
  {
  }

  /** The tokens the walk treats as operators (blueprint.js:184-185). */
  predicate IsOperator(t: string)
  {
    t == "." || t == "[" || t == "]" || t == "="
  }

  /** A text token is never one of the operator tokens. */
  lemma TextIsNotOperator(t: string)
    requires DelimiterFree(t)
    ensures !IsOperator(t)
  {
    if |t| == 1 {
      assert !IsDelimiter(t[0]);
    }
  }

  // ---------------------------------------------------------------------
  // The bracket scan, blueprint.js:191-228

  /** The first position at or after `from` holding the token `t`, or `|ts|` if there is none. */
  function Find(ts: seq<string>, from: nat, t: string): (p: nat)
    requires from <= |ts|
    ensures from <= p <= |ts|
    ensures p < |ts| ==> ts[p] == t
    ensures forall i :: from <= i < p ==> ts[i] != t
    decreases |ts| - from
  {
    if from == |ts| then from
    else if ts[from] == t then from
    else Find(ts, from + 1, t)
  }

  /**
    The quote stripping at blueprint.js:221-224: a value whose first and last
    characters are both `"` or both `'` loses them. A lone quote character
    becomes empty, as `substr(1, -1)` does.
   */
  function StripQuotes(v: string): (r: string)
    ensures |r| <= |v|
    ensures (v == [] || (v[0] != '"' && v[0] != '\'')) ==> r == v
  {
    if |v| > 0 && ((v[0] == '"' && v[|v| - 1] == '"') || (v[0] == '\'' && v[|v| - 1] == '\'')) then
      if |v| >= 2 then v[1..|v| - 1] else ""
    else v
  }

  /** One matching pair of surrounding quotes is removed, and only that pair. */
  lemma StripQuotesOf(q: char, s: string)
    requires q == '"' || q == '\''
    ensures StripQuotes([q] + s + [q]) == s
  {
    assert ([q] + s + [q])[1..|s| + 1] == s;
  }

  /** A lone quote character is both first and last, and `substr(1, -1)` leaves nothing. */
  lemma LoneQuote(q: char)
    requires q == '"' || q == '\''
    ensures StripQuotes([q]) == ""
  {
  }

  /**
    Only a value that starts and ends with the same quote character changes:
    a quote at one end only, or different quotes at the two ends, stay.
   */
  lemma StripOnlyMatchingQuotes(v: string)
    ensures StripQuotes(v) != v ==> |v| >= 1 && (v[0] == '"' || v[0] == '\'') && v[|v| - 1] == v[0]
  {
  }

  /**
    The state of the scan loop: the key `k` and value `v` found so far and the
    outer cursor `x`, which the loop moves onto each `=` and `]` it consumes.
   */
  datatype Scan = Scan(key: Option<string>, value: Option<string>, cursor: nat)

  /**
    The scan loop from position `w` on. It does not stop at `]`: it runs to
    the end of the compound, so a later `]` overwrites the value.
   */
  function ScanBracket(ts: seq<string>, w: nat, s: Scan): (r: Option<Scan>)
    requires s.cursor < w <= |ts|
    ensures r.Some? ==> s.cursor <= r.value.cursor < |ts|
    ensures r.Some? && s.key.Some? ==> r.value.key == s.key
    decreases |ts| - w
  {
    if w == |ts| then Some(s)
    else if ts[w] == "=" then
      if w == s.cursor + 1 then None
      else if s.key.None? then ScanBracket(ts, w + 1, Scan(Some(Join(ts[s.cursor + 1..w], "")), s.value, w))
      else ScanBracket(ts, w + 1, s)
    else if ts[w] == "]" then
      if w == s.cursor + 1 then None
      else if s.key.None? then None
      else ScanBracket(ts, w + 1, Scan(s.key, Some(StripQuotes(Join(ts[s.cursor + 1..w], ""))), w))
    else ScanBracket(ts, w + 1, s)
  }

  /** Once a key is found the scan cannot fail, and with no `]` left it changes nothing more. */
  lemma {:induction false} ScanAfterKey(ts: seq<string>, w: nat, s: Scan)
    requires Tokenized(ts) && s.cursor < w <= |ts| && s.cursor % 2 == 1 && s.key.Some?
    ensures ScanBracket(ts, w, s).Some?
    ensures Find(ts, w, "]") == |ts| ==> ScanBracket(ts, w, s) == Some(s)
    decreases |ts| - w
  {
    if w < |ts| {
      if ts[w] == "=" || ts[w] == "]" {
        DelimiterParity(ts, w);
        var s' := if ts[w] == "=" then s else Scan(s.key, Some(StripQuotes(Join(ts[s.cursor + 1..w], ""))), w);
        ScanAfterKey(ts, w + 1, s');
      } else {
        ScanAfterKey(ts, w + 1, s);
      }
    }
  }

  /** `=` and `]` tokens sit at odd positions only. */
  lemma DelimiterParity(ts: seq<string>, w: nat)
    requires Tokenized(ts) && w < |ts| && (ts[w] == "=" || ts[w] == "]")
    ensures w % 2 == 1
  {
    assert IsDelimiterToken(ts[w]);
  }

  /**
    Before a key is found, the scan fails exactly when a `]` comes before any
    `=`. The `w === x + 1` checks (blueprint.js:198, 209) never fire, because
    the token after the cursor is always text.
   */
  lemma {:induction false} ScanBeforeKey(ts: seq<string>, w: nat, x: nat)
    requires Tokenized(ts) && x < w <= |ts| && x % 2 == 1
    ensures ScanBracket(ts, w, Scan(None, None, x)).None? <==> Find(ts, w, "]") < Find(ts, w, "=")
    decreases |ts| - w
  {
    if w < |ts| {
      if ts[w] == "=" {
        DelimiterParity(ts, w);
        ScanAfterKey(ts, w + 1, Scan(Some(Join(ts[x + 1..w], "")), None, w));
      } else if ts[w] == "]" {
        DelimiterParity(ts, w);
      } else {
        ScanBeforeKey(ts, w + 1, x);
      }
    }
  }

  /** A bracket at `x` fails (the `null` of blueprint.js:214-217) iff a `]` precedes every `=`. */
  lemma BracketFails(ts: seq<string>, x: nat)
    requires Tokenized(ts) && x < |ts| && ts[x] == "["
    ensures ScanBracket(ts, x + 1, Scan(None, None, x)).None? <==> Find(ts, x + 1, "]") < Find(ts, x + 1, "=")
  {
    DelimiterFollowedByText(ts, x);
    ScanBeforeKey(ts, x + 1, x);
  }

  /** Tokens that are neither `=` nor `]` leave the scan state as it is. */
  lemma {:induction false} ScanSkipsText(ts: seq<string>, w: nat, w2: nat, s: Scan)
    requires s.cursor < w <= w2 <= |ts|
    requires forall i :: w <= i < w2 ==> ts[i] != "=" && ts[i] != "]"
    ensures ScanBracket(ts, w, s) == ScanBracket(ts, w2, s)
    decreases w2 - w
  {
    if w < w2 {
      ScanSkipsText(ts, w + 1, w2, s);
    }
  }

  /** Once the key is found, only a `]` changes the scan state. */
  lemma {:induction false} ScanSkipsToClose(ts: seq<string>, w: nat, w2: nat, s: Scan)
    requires Tokenized(ts) && s.cursor % 2 == 1 && s.key.Some?
    requires s.cursor < w <= w2 <= |ts|
    requires forall i :: w <= i < w2 ==> ts[i] != "]"
    ensures ScanBracket(ts, w, s) == ScanBracket(ts, w2, s)
    decreases w2 - w
  {
    if w < w2 {
      if ts[w] == "=" {
        DelimiterParity(ts, w);
      }
      ScanSkipsToClose(ts, w + 1, w2, s);
    }
  }

  /**
    The scan of a bracket at `x` up to the first `=` after it, at `e`, when
    no `]` comes first: the key is the concatenation of the tokens between
    (blueprint.js:204), and the cursor moves onto the `=`.
   */
  lemma ScanToKey(ts: seq<string>, x: nat, e: nat)
    requires Tokenized(ts) && x < |ts| && ts[x] == "["
    requires e == Find(ts, x + 1, "=") && e < Find(ts, x + 1, "]")
    ensures x % 2 == 1 && e % 2 == 1
    ensures ScanBracket(ts, x + 1, Scan(None, None, x)) == ScanBracket(ts, e + 1, Scan(Some(Join(ts[x + 1..e], "")), None, e))
  {
    DelimiterFollowedByText(ts, x);
    DelimiterParity(ts, e);
    ScanSkipsText(ts, x + 1, e, Scan(None, None, x));
  }

  /**
    `[key=value]`, with the first `=` at `e` and the first `]` after it at
    `c`, the last `]` in the compound: `key` is every token up to the `=`,
    `value` every token from there to the `]` with one pair of quotes
    stripped, and the walk resumes after the `]`.
    Both may hold delimiters (`[href=a.html]`, `[k=a=b]`).
   */
  /** A `]` after the key closes the bracket: the value is the text since the cursor, quotes stripped. */
  lemma CloseStep(ts: seq<string>, c: nat, s: Scan)
    requires s.key.Some? && s.cursor + 1 < c < |ts| && ts[c] == "]"
    ensures ScanBracket(ts, c, s)
      == ScanBracket(ts, c + 1, Scan(s.key, Some(StripQuotes(Join(ts[s.cursor + 1..c], ""))), c))
  {
  }

  /** From a found key, the first `]` is the last one: it sets the value and the scan ends there. */
  lemma CloseLast(ts: seq<string>, c: nat, s: Scan)
    requires Tokenized(ts) && s.key.Some? && s.cursor % 2 == 1
    requires s.cursor < |ts| && c == Find(ts, s.cursor + 1, "]") && c < |ts| && Find(ts, c + 1, "]") == |ts|
    ensures ScanBracket(ts, s.cursor + 1, s) == Some(Scan(s.key, Some(StripQuotes(Join(ts[s.cursor + 1..c], ""))), c))
  {
    var closed := Scan(s.key, Some(StripQuotes(Join(ts[s.cursor + 1..c], ""))), c);
    assert ScanBracket(ts, s.cursor + 1, s) == ScanBracket(ts, c, s) by {
      ScanSkipsToClose(ts, s.cursor + 1, c, s);
    }
    assert ScanBracket(ts, c, s) == ScanBracket(ts, c + 1, closed) by {
      DelimiterParity(ts, c);
      CloseStep(ts, c, s);
    }
    assert ScanBracket(ts, c + 1, closed) == Some(closed) by {
      DelimiterParity(ts, c);
      ScanAfterKey(ts, c + 1, closed);
    }
  }

  lemma AttributeBracket(ts: seq<string>, x: nat, e: nat, c: nat)
    requires Tokenized(ts) && x < |ts| && ts[x] == "["
    requires e == Find(ts, x + 1, "=") && e < Find(ts, x + 1, "]")
    requires c == Find(ts, e + 1, "]") && c < |ts| && Find(ts, c + 1, "]") == |ts|
    ensures ScanBracket(ts, x + 1, Scan(None, None, x))
      == Some(Scan(Some(Join(ts[x + 1..e], "")), Some(StripQuotes(Join(ts[e + 1..c], ""))), c))
  {
    var keyed := Scan(Some(Join(ts[x + 1..e], "")), None, e);
    ScanToKey(ts, x, e);
    CloseLast(ts, c, keyed);
  }

  /**
    `[key=value` with no `]` after the `=` at `e`: `key` (every token up to
    the first `=`) is set to `null`, and the walk resumes at the token after
    the `=`, so the text of `value` becomes the tag.
   */
  lemma UnterminatedBracket(ts: seq<string>, x: nat, e: nat)
    requires Tokenized(ts) && x < |ts| && ts[x] == "["
    requires e == Find(ts, x + 1, "=") && e < Find(ts, x + 1, "]")
    requires Find(ts, e + 1, "]") == |ts|
    ensures ScanBracket(ts, x + 1, Scan(None, None, x)) == Some(Scan(Some(Join(ts[x + 1..e], "")), None, e))
  {
    ScanToKey(ts, x, e);
    ScanSkipsToClose(ts, e + 1, |ts|, Scan(Some(Join(ts[x + 1..e], "")), None, e));
  }

  // ---------------------------------------------------------------------
  // The token walk, blueprint.js:171-233

  /** The property name a key becomes: JavaScript turns a `null` key into "null". */
  function KeyName(k: Option<string>): string
  {
    if k.Some? then k.value else "null"
  }

  /**
    The walk from cursor `x` with the template `res` built so far: the
    result, or `None` where the source returns `null`.
   */
  function ParseTokens(ts: seq<string>, x: nat, res: Template): Option<Template>
    decreases |ts| - x
  {
    if x >= |ts| then Some(res)
    else
      var token := ts[x];
      if token == "" then ParseTokens(ts, x + 1, res)
      else if token == "." then
        if x + 1 >= |ts| then None
        else
          if IsOperator(ts[x + 1]) then None
          else ParseTokens(ts, x + 2, res.(classList := AddClasses(res.classList, Pieces(ClassString(ts[x + 1])))))
      else if token == "[" then
        match ScanBracket(ts, x + 1, Scan(None, None, x))
        case None => None
        case Some(s) => ParseTokens(ts, s.cursor + 1, res.(attributes := res.attributes[KeyName(s.key) := s.value]))
      else ParseTokens(ts, x + 1, res.(tagName := token))
  }

  /**
    What the walk may do to a template: set the tag, add classes and set
    attributes. Children and listeners stay, the old class list stays a
    prefix, and the class list invariant is kept.
   */
  predicate Extends(res: Template, t: Template)
  {
    && t.childNodes == res.childNodes && t.eventListeners == res.eventListeners
    && |res.classList| <= |t.classList| && t.classList[..|res.classList|] == res.classList
    && (ClassListOk(res.classList) ==> ClassListOk(t.classList))
  }

  lemma ExtendsTransitive(a: Template, b: Template, c: Template)
    requires Extends(a, b) && Extends(b, c)
    ensures Extends(a, c)
  {
    assert c.classList[..|a.classList|] == c.classList[..|b.classList|][..|a.classList|];
  }

  /** The walk changes nothing but the tag, the classes and the attributes. */
  lemma {:induction false} WalkKeeps(ts: seq<string>, x: nat, res: Template)
    ensures ParseTokens(ts, x, res).Some? ==> Extends(res, ParseTokens(ts, x, res).value)
    decreases |ts| - x
  {
    if x < |ts| {
      var token := ts[x];
      var step: Template;
      var from: nat;
      if token == "" {
        step, from := res, x + 1;
      } else if token == "." {
        if x + 1 >= |ts| {
          return;
        }
        step, from := res.(classList := AddClasses(res.classList, Pieces(ClassString(ts[x + 1])))), x + 2;
      } else if token == "[" {
        match ScanBracket(ts, x + 1, Scan(None, None, x))
        case None =>
          return;
        case Some(s) =>
          step, from := res.(attributes := res.attributes[KeyName(s.key) := s.value]), s.cursor + 1;
      } else {
        step, from := res.(tagName := token), x + 1;
      }
      assert Extends(res, step);
      WalkKeeps(ts, from, step);
      assert ParseTokens(ts, x, res) == ParseTokens(ts, from, step) || ParseTokens(ts, x, res).None?;
      if ParseTokens(ts, x, res).Some? {
        ExtendsTransitive(res, step, ParseTokens(ts, x, res).value);
      }
    } else {
      assert res.classList[..|res.classList|] == res.classList;
    }
  }

  /** The `null` returns at blueprint.js:179-188 cannot happen: a `.` is always followed by text. */
  lemma ClassOperatorNeverFails(ts: seq<string>, x: nat, res: Template)
    requires Tokenized(ts) && x < |ts| && ts[x] == "."
    ensures x + 1 < |ts|
    ensures ParseTokens(ts, x, res) == ParseTokens(ts, x + 2, res.(classList := AddClasses(res.classList, SplitOn(ts[x + 1], ' '))))
  {
    DelimiterFollowedByText(ts, x);
    TextIsNotOperator(ts[x + 1]);
  }

  /** A compound without a `[` always parses. */
  lemma {:induction false} NoBracketTokensParse(ts: seq<string>, x: nat, res: Template)
    requires Tokenized(ts)
    requires forall i :: x <= i < |ts| ==> ts[i] != "["
    ensures ParseTokens(ts, x, res).Some?
    decreases |ts| - x
  {
    if x < |ts| {
      var token := ts[x];
      if token == "" {
        NoBracketTokensParse(ts, x + 1, res);
      } else if token == "." {
        ClassOperatorNeverFails(ts, x, res);
        NoBracketTokensParse(ts, x + 2, res.(classList := AddClasses(res.classList, SplitOn(ts[x + 1], ' '))));
      } else {
        NoBracketTokensParse(ts, x + 1, res.(tagName := token));
      }
    }
  }

  /**
    Whether the walk takes token `j` as the tag (blueprint.js:229-232): a
    non-empty token other than `.` that does not follow a `.`, since the
    token after a `.` is read as class names.
   */
  predicate TagAt(ts: seq<string>, j: nat)
    requires j < |ts|
  {
    ts[j] != "" && ts[j] != "." && (j == 0 || ts[j - 1] != ".")
  }

  /** The token at the last tag position in `[x, n)`, or `d` when there is none. */
  function LastTag(ts: seq<string>, x: nat, n: nat, d: string): string
    requires n <= |ts|
    decreases n
  {
    if n <= x then d
    else if TagAt(ts, n - 1) then ts[n - 1]
    else LastTag(ts, x, n - 1, d)
  }

  /** `LastTag` is the token at the largest tag position in `[x, n)`. */
  lemma {:induction false} LastTagIsLargest(ts: seq<string>, x: nat, n: nat, d: string, j: nat)
    requires x <= j < n <= |ts| && TagAt(ts, j)
    requires forall k :: j < k < n ==> !TagAt(ts, k)
    ensures LastTag(ts, x, n, d) == ts[j]
    decreases n
  {
    if j < n - 1 {
      assert !TagAt(ts, n - 1);
      LastTagIsLargest(ts, x, n - 1, d, j);
    }
  }

  /** With no tag position in `[x, n)`, `LastTag` is the default. */
  lemma {:induction false} LastTagNone(ts: seq<string>, x: nat, n: nat, d: string)
    requires n <= |ts|
    requires forall j :: x <= j < n ==> !TagAt(ts, j)
    ensures LastTag(ts, x, n, d) == d
    decreases n
  {
    if x < n {
      LastTagNone(ts, x, n - 1, d);
    }
  }

  /** Reading the positions from the front: position `x` only replaces the default. */
  lemma {:induction false} LastTagFront(ts: seq<string>, x: nat, n: nat, d: string)
    requires x < n <= |ts|
    ensures LastTag(ts, x, n, d) == LastTag(ts, x + 1, n, if TagAt(ts, x) then ts[x] else d)
    decreases n
  {
    if x + 1 < n {
      LastTagFront(ts, x, n - 1, d);
    }
  }

  /**
    The tag rule: for tokens without `[`, the walk from `x` (a position it
    can reach, so not the token after a `.`) ends with the last tag token
    as the tag, or keeps the old tag when there is none.
   */
  lemma {:induction false} WalkTag(ts: seq<string>, x: nat, res: Template)
    requires Tokenized(ts) && x <= |ts|
    requires forall i :: x <= i < |ts| ==> ts[i] != "["
    requires x == 0 || ts[x - 1] != "."
    ensures ParseTokens(ts, x, res).Some?
    ensures ParseTokens(ts, x, res).value.tagName == LastTag(ts, x, |ts|, res.tagName)
    decreases |ts| - x
  {
    if x < |ts| {
      LastTagFront(ts, x, |ts|, res.tagName);
      var token := ts[x];
      if token == "" {
        WalkTag(ts, x + 1, res);
      } else if token == "." {
        ClassOperatorNeverFails(ts, x, res);
        DelimiterFollowedByText(ts, x);
        TextIsNotOperator(ts[x + 1]);
        LastTagFront(ts, x + 1, |ts|, res.tagName);
        WalkTag(ts, x + 2, res.(classList := AddClasses(res.classList, SplitOn(ts[x + 1], ' '))));
      } else {
        WalkTag(ts, x + 1, res.(tagName := token));
      }
    }
  }

  // ---------------------------------------------------------------------
  // $new

  /** What `$new(sel)` returns; `None` stands for `null`. */
  function Parse(sel: string): Option<Template>
    decreases |sel|
  {
    var s := Trim(sel);
    var index := IndexOf(s, ' ');
    if index < 0 then Assemble(s, None)
    else
      var child := Parse(s[index + 1..]);
      Assemble(s[..index], child)
  }

  /**
    The result for one compound: the template its tokens build from the
    default one, with the descendant's template pushed as a child unless it
    is `null`, or `None` when the compound itself fails.
   */
  function Assemble(compound: string, child: Option<Template>): Option<Template>
  {
    match ParseTokens(Tokenize(compound), 0, Blank())
    case None => None
    case Some(res) =>
      if child.Some? then Some(res.(childNodes := res.childNodes + [Sub(child.value)])) else Some(res)
  }

  /**
    A template `$new` produces has no listeners, satisfies `WellFormed`, and
    has at most one child, a template: a descendant selector makes a chain,
    never siblings.
   */
  lemma {:induction false} ParseShape(sel: string)
    ensures Parse(sel).Some? ==>
      var t := Parse(sel).value;
      && WellFormed(t) && t.eventListeners == map[]
      && |t.childNodes| <= 1 && forall i :: 0 <= i < |t.childNodes| ==> t.childNodes[i].Sub?
    decreases |sel|
  {
    var s := Trim(sel);
    var index := IndexOf(s, ' ');
    if index < 0 {
      WalkFromBlank(Tokenize(s));
    } else {
      ParseShape(s[index + 1..]);
      WalkFromBlank(Tokenize(s[..index]));
    }
  }

  /** A walk that starts from the default template yields a well-formed template with no children or listeners. */
  lemma WalkFromBlank(ts: seq<string>)
    ensures ParseTokens(ts, 0, Blank()).Some? ==>
      var t := ParseTokens(ts, 0, Blank()).value;
      WellFormed(t) && t.childNodes == [] && t.eventListeners == map[]
  {
    WalkKeeps(ts, 0, Blank());
  }

  /** Empty or whitespace-only input gives the default template. */
  lemma ParseBlank(sel: string)
    requires forall i :: 0 <= i < |sel| ==> IsWhitespace(sel[i])
    ensures Parse(sel) == Some(Blank())
  {
    TrimAllWhitespace(sel);
    assert IndexOf([], ' ') < 0;
    assert ParseTokens(Tokenize([]), 0, Blank()) == Some(Blank()) by {
      assert Tokenize([]) == [""];
      assert ParseTokens([""], 1, Blank()) == Some(Blank());
    }
  }

  /** Every character of a token occurs in the concatenation. */
  lemma {:induction false} TokenCharInJoin(ts: seq<string>, i: nat, j: nat)
    requires i < |ts| && j < |ts[i]|
    ensures ts[i][j] in Join(ts, "")
    decreases |ts|
  {
    if |ts| > 1 {
      assert Join(ts, "") == ts[0] + "" + Join(ts[1..], "");
      if i > 0 {
        TokenCharInJoin(ts[1..], i - 1, j);
      }
    }
  }

  /** A selector without `[` never gives `null`. */
  lemma NoBracketParses(sel: string)
    requires '[' !in sel
    ensures Parse(sel).Some?
  {
    var s := Trim(sel);
    var index := IndexOf(s, ' ');
    var compound := if index >= 0 then s[..index] else s;
    var ts := Tokenize(compound);
    TokenizeShape(compound);
    TokenizeConcat(compound);
    forall i | 0 <= i < |ts| ensures ts[i] != "[" {
      if ts[i] == "[" {
        TokenCharInJoin(ts, i, 0);
        assert '[' in compound;
        if index >= 0 {
          assert '[' in s;
        }
        TrimKeepsCharacters(sel, '[');
      }
    }
    NoBracketTokensParse(ts, 0, Blank());
  }

  /**
    A descendant selector `a b` gives the template for `a` with the template
    for `b` as its only child, or none when `b` gives `null`; it is `null`
    exactly when `a` alone is.
   */
  lemma ParseDescendant(a: string, b: string)
    requires a != [] && ' ' !in a && !IsWhitespace(a[0]) && !IsWhitespace(a[|a| - 1])
    requires b != [] && !IsWhitespace(b[0]) && !IsWhitespace(b[|b| - 1])
    ensures Parse(a + " " + b).Some? <==> Parse(a).Some?
    ensures Parse(a).Some? ==>
      Parse(a + " " + b).value == Parse(a).value.(childNodes := if Parse(b).Some? then [Sub(Parse(b).value)] else [])
  {
    ParseCompoundAndRest(a, b);
    ParseCompound(a);
    WalkFromBlank(Tokenize(a));
  }

  /** `a b` is the compound `a` with the descendant `b`. */
  lemma ParseCompoundAndRest(a: string, b: string)
    requires a != [] && ' ' !in a && !IsWhitespace(a[0])
    requires b != [] && !IsWhitespace(b[|b| - 1])
    ensures Parse(a + " " + b) == Assemble(a, Parse(b))
  {
    var s := a + " " + b;
    FirstSpace(a, b);
    ParseAtSpace(s, |a|);
    assert s[|a| + 1..] == b && s[..|a|] == a;
  }

  /** Parsing a trimmed selector whose first space is at `index`. */
  lemma ParseAtSpace(sel: string, index: nat)
    requires Trim(sel) == sel && index < |sel| && IndexOf(sel, ' ') == index
    ensures Parse(sel) == Assemble(sel[..index], Parse(sel[index + 1..]))
  {
  }

  /** A compound with no space and no surrounding whitespace has no descendant. */
  lemma ParseCompound(a: string)
    requires a != [] && ' ' !in a && !IsWhitespace(a[0]) && !IsWhitespace(a[|a| - 1])
    ensures Parse(a) == Assemble(a, None)
  {
    TrimUnchanged(a);
    IndexOfSpec(a, ' ');
  }

  /** The first space of `a b` is the one between them, and `a b` is already trimmed. */
  lemma FirstSpace(a: string, b: string)
    requires a != [] && ' ' !in a && !IsWhitespace(a[0])
    requires b != [] && !IsWhitespace(b[|b| - 1])
    ensures Trim(a + " " + b) == a + " " + b
    ensures IndexOf(a + " " + b, ' ') == |a|
  {
    var s := a + " " + b;
    assert s[0] == a[0] && s[|s| - 1] == b[|b| - 1];
    TrimUnchanged(s);
    IndexOfSpec(s, ' ');
    assert s[|a|] == ' ';
    forall i | 0 <= i < |a| ensures s[i] != ' ' {
      assert s[i] == a[i];
    }
  }

  // ---------------------------------------------------------------------
  // The imperative parser

  /**
    `$new(sel)`: trims the input, parses the text after the first space as
    the descendant, walks the compound's tokens into a fresh `Element`, and
    appends the descendant unless it is `null`. It returns `null` exactly
    when `Parse` gives `None`, and otherwise a new element holding `Parse(sel)`.
   */
  method New(sel: string) returns (r: Builder.Element?)
    ensures r == null <==> Parse(sel).None?
    ensures r != null ==> fresh(r) && r.Value() == Parse(sel).value && r.Valid()
    decreases |sel|
  {
    var s := Trim(sel);
    var index := IndexOf(s, ' ');
    if index < 0 {
      r := Build(s, null);
    } else {
      var child := New(s[index + 1..]);
      r := Build(s[..index], child);
    }
    ParseShape(sel);
  }

  /**
    The rest of `$new` for one compound: walks its tokens into a fresh
    element and appends the descendant's element, if there is one.
   */
  method Build(compound: string, child: Builder.Element?) returns (r: Builder.Element?)
    ensures r == null <==> Assemble(compound, if child == null then None else Some(child.Value())).None?
    ensures r != null ==>
      && fresh(r)
      && r.Value() == Assemble(compound, if child == null then None else Some(child.Value())).value
  {
    r := Walk(Tokenize(compound));
    if r != null && child != null {
      r.Append(Leaf(Sub(child.Value())));
    }
  }

  /**
    The loop at blueprint.js:171-233: the cursor `x` walks the tokens while
    `res` is updated in place. It gives `null` exactly when `ParseTokens`
    gives `None`.
   */
  method Walk(tokens: seq<string>) returns (r: Builder.Element?)
    ensures r == null <==> ParseTokens(tokens, 0, Blank()).None?
    ensures r != null ==> fresh(r) && r.Value() == ParseTokens(tokens, 0, Blank()).value
  {
    var res := new Builder.Element();
    var x, y := 0, |tokens|;
    while x < y
      invariant 0 <= x <= y == |tokens|
      invariant fresh(res)
      invariant ParseTokens(tokens, x, res.Value()) == ParseTokens(tokens, 0, Blank())
      decreases y - x
    {
      var next := Step(tokens, x, res);
      if next.None? {
        return null;
      }
      x := next.value;
    }
    return res;
  }

  /**
    One pass of the loop body for the token at the cursor `x`: a bare token
    sets the tag, `.` adds the following token as classes, `[` runs the
    bracket scan and sets the attribute, and an empty token is skipped. It
    gives the cursor after the final `++ x`, or `None` where the source
    returns `null`; the rest of the walk is unaffected by the split.
   */
  method Step(tokens: seq<string>, x: nat, res: Builder.Element) returns (next: Option<nat>)
    requires x < |tokens|
    modifies res`tagName, res`classList, res`attributes
    ensures next.None? ==> ParseTokens(tokens, x, old(res.Value())).None?
    ensures next.Some? ==> x < next.value <= |tokens|
    ensures next.Some? ==> ParseTokens(tokens, next.value, res.Value()) == ParseTokens(tokens, x, old(res.Value()))
  {
    var token := tokens[x];
    if token == "" {
      return Some(x + 1);
    } else if token == "." {
      if x + 1 >= |tokens| || IsOperator(tokens[x + 1]) {
        return None;
      }
      res.Classes(ClassString(tokens[x + 1]));
      return Some(x + 2);
    } else if token == "[" {
      var scan := ScanAttribute(tokens, x);
      if scan.None? {
        return None;
      }
      res.Attribute(KeyName(scan.value.key), scan.value.value);
      return Some(scan.value.cursor + 1);
    } else {
      res.tagName := token;
      return Some(x + 1);
    }
  }

  /**
    The nested loop at blueprint.js:193-227 for the `[` at `x`: it collects
    the key at the first `=` and a value at every later `]`, moving the
    cursor onto each, and gives `None` where the source returns `null`.
   */
  method ScanAttribute(tokens: seq<string>, x0: nat) returns (r: Option<Scan>)
    requires x0 < |tokens|
    ensures r == ScanBracket(tokens, x0 + 1, Scan(None, None, x0))
  {
    var k: Option<string> := None;
    var v: Option<string> := None;
    var x: nat := x0;
    var w, y := x0 + 1, |tokens|;
    while w < y
      invariant x < w <= y == |tokens|
      invariant ScanBracket(tokens, w, Scan(k, v, x)) == ScanBracket(tokens, x0 + 1, Scan(None, None, x0))
      decreases y - w
    {
      var t := tokens[w];
      if t == "=" {
        if w == x + 1 {
          return None;
        }
        if k.None? {
          k := Some(Join(tokens[x + 1..w], ""));
          x := w;
        }
      } else if t == "]" {
        if w == x + 1 {
          return None;
        }
        if k.None? {
          return None;
        }
        v := Some(StripQuotes(Join(tokens[x + 1..w], "")));
        x := w;
      }
      w := w + 1;
    }
    return Some(Scan(k, v, x));
  }
}
