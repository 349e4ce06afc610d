/** Strings with quotes in them: how the TOML subset writes them, and which of them a line keeps. */
module TomlEscapes {
  // The string parser reads an escaped quote as part of the string, while the search for a comment takes every
  // quote as an end or a beginning of one.

  import opened Toml
  import opened TomlDocument

  /** The text with every quote escaped. */
  function Escape(s: string): string {
    if s == "" then "" else (if s[0] == '"' then "\\\"" else [s[0]]) + Escape(s[1..])
  }

  predicate EndsInBackslash(s: string) { s != "" && s[|s| - 1] == '\\' }

  function Quotes(s: string): nat {
    if s == "" then 0 else Quotes(s[..|s| - 1]) + if s[|s| - 1] == '"' then 1 else 0
  }

  /** Every # of the text stands behind an even number of quotes. */
  ghost predicate HashesInside(s: string) {
    forall i :: 0 <= i < |s| && s[i] == '#' ==> Quotes(s[..i]) % 2 == 0
  }

  /** The strings that a line keeps. */
  ghost predicate Survives(s: string) {
    |s| < MAX_STR && !EndsInBackslash(s) && HashesInside(s)
  }

  // ---------------------------------------------------- the string parser

  /** The first character of an escaped text is never a quote. */
  lemma EscapeStart(s: string)
    requires s != ""
    ensures Escape(s) != "" && Escape(s)[0] != '"' && |Escape(s)| >= |s|
  {
    EscapeLength(s);
  }

  lemma {:induction false} EscapeLength(s: string)
    ensures |Escape(s)| >= |s|
  {
    if s != "" { EscapeLength(s[1..]); }
  }

  /** An escaped text between quotes is read back, exactly if it fits and does not end in a backslash. */
  lemma {:induction false} ReadEscaped(s: string, out: string)
    requires |out| < MAX_STR
    ensures StringFrom(Escape(s) + "\"", out).Ok? <==> |out| + |s| < MAX_STR && !EndsInBackslash(s)
    ensures StringFrom(Escape(s) + "\"", out).Ok? ==> StringFrom(Escape(s) + "\"", out).value == out + s
    decreases |s|
  {
    var p := Escape(s) + "\"";
    if s == "" {
      assert p == "\"";
    } else if |out| == MAX_STR - 1 {
      EscapeStart(s);
    } else if s[0] == '"' {
      assert p[2..] == Escape(s[1..]) + "\"";
      ReadEscaped(s[1..], out + ['"']);
    } else if s == "\\" {
      assert p == "\\\"" && p[2..] == "";
    } else {
      assert p[1..] == Escape(s[1..]) + "\"";
      if s[0] == '\\' { EscapeStart(s[1..]); }
      ReadEscaped(s[1..], out + [s[0]]);
    }
  }

  lemma SliceOn(a: string, b: string, k: nat)
    requires |a| <= k <= |a| + |b|
    ensures (a + b)[..k] == a + b[..k - |a|] && (a + b)[..k][|a|..] == b[..k - |a|]
  {
  }

  /** Without the closing quote it is refused, also when more is missing. */
  lemma {:induction false} PrefixRefused(s: string, k: nat, out: string)
    requires k <= |Escape(s)|
    ensures StringFrom(Escape(s)[..k], out).Err?
    decreases |s|
  {
    var p := Escape(s)[..k];
    if k > 0 { EscapeStart(s); }
    if k > 0 && |out| < MAX_STR - 1 {
      if s[0] != '"' {
        SliceOn([s[0]], Escape(s[1..]), k);
        if k > 1 { EscapeStart(s[1..]); }
        PrefixRefused(s[1..], k - 1, out + [s[0]]);
      } else if k == 1 {
        assert p == "\\" && p[1..] == "";
      } else {
        SliceOn("\\\"", Escape(s[1..]), k);
        assert p[0] == '\\' && p[1] == '"';
        PrefixRefused(s[1..], k - 2, out + ['"']);
      }
    }
  }

  // --------------------------------------------------- the comment search

  /** No # of the text is outside quotes for the comment search, which starts inside or outside. */
  predicate NoComment(s: string, quoted: bool) {
    s == "" || (
      var q := if s[0] == '"' then !quoted else quoted;
      (s[0] == '#' ==> q) && NoComment(s[1..], q))
  }

  lemma {:induction false} CountFromFront(s: string)
    requires s != ""
    ensures Quotes(s) == Quotes(s[1..]) + if s[0] == '"' then 1 else 0
    decreases |s|
  {
    if |s| == 1 {
      assert s[..0] == "" && s[1..] == "";
    } else {
      CountFromFront(s[..|s| - 1]);
      assert s[..|s| - 1][1..] == s[1..][..|s[1..]| - 1];
    }
  }

  lemma {:induction false} NoCommentIsParity(s: string, quoted: bool)
    ensures NoComment(s, quoted) <==> forall i :: 0 <= i < |s| && s[i] == '#' ==> (Quotes(s[..i]) % 2 == 0) == quoted
    decreases |s|
  {
    if s != "" {
      var q, t := if s[0] == '"' then !quoted else quoted, s[1..];
      NoCommentIsParity(t, q);
      forall i | 0 < i < |s|
        ensures s[i] == t[i - 1]
        ensures (Quotes(s[..i]) % 2 == 0) == quoted <==> (Quotes(t[..i - 1]) % 2 == 0) == q
      {
        CountFromFront(s[..i]);
        assert s[..i][1..] == t[..i - 1] && s[..i][0] == s[0];
      }
      assert s[..0] == "";
      if NoComment(s, quoted) {
        forall i | 0 <= i < |s| && s[i] == '#' ensures (Quotes(s[..i]) % 2 == 0) == quoted {
          if i > 0 { assert t[i - 1] == '#'; }
        }
      } else if s[0] != '#' || q {
        var j :| 0 <= j < |t| && t[j] == '#' && (Quotes(t[..j]) % 2 == 0) != q;
        assert s[j + 1] == '#' && t[..j] == t[..(j + 1) - 1];
      }
    }
  }

  lemma PastEscape(rest: string, quoted: bool)
    ensures BeforeComment("\\\"" + rest, quoted) == "\\\"" + BeforeComment(rest, !quoted)
  {
    var p := "\\\"" + rest;
    assert p[1..] == "\"" + rest && p[1..][1..] == rest;
    assert BeforeComment(p[1..], quoted) == "\"" + BeforeComment(rest, !quoted);
  }

  lemma PastOther(c: char, rest: string, quoted: bool)
    requires c != '"' && (c == '#' ==> quoted)
    ensures BeforeComment([c] + rest, quoted) == [c] + BeforeComment(rest, quoted)
  {
    assert ([c] + rest)[1..] == rest;
  }

  lemma PrefixOn(a: string, b: string, c: string)
    requires b <= c
    ensures a + b <= a + c
  {
  }

  lemma Regrouped(a: string, b: string, c: string)
    ensures (a + b) + c == a + (b + c)
  {
  }

  /** The comment search keeps an escaped text and its closing quote, or it cuts the text. */
  lemma {:induction false} CommentCut(s: string, quoted: bool)
    ensures NoComment(s, quoted) ==> BeforeComment(Escape(s) + "\"", quoted) == Escape(s) + "\""
    ensures !NoComment(s, quoted) ==> BeforeComment(Escape(s) + "\"", quoted) <= Escape(s)
    decreases |s|
  {
    if s == "" {
      assert Escape(s) + "\"" == "\"" && "\""[1..] == "";
    } else if s[0] == '#' && !quoted {
      assert (Escape(s) + "\"")[0] == '#';
    } else {
      var first, rest := if s[0] == '"' then "\\\"" else [s[0]], Escape(s[1..]);
      var q := if s[0] == '"' then !quoted else quoted;
      CommentCut(s[1..], q);
      Regrouped(first, rest, "\"");
      if s[0] == '"' { PastEscape(rest + "\"", quoted); } else { PastOther(s[0], rest + "\"", quoted); }
      if !NoComment(s[1..], q) { PrefixOn(first, BeforeComment(rest + "\"", q), rest); }
    }
  }

  // ------------------------------------------------------------- the line

  function EscapedLine(key: string, s: string): string { key + " = " + Quoted(Escape(s)) }

  lemma {:induction false} TrimRightKeeps(s: string)
    requires s != "" && !Space(s[0])
    ensures TrimRight(s) != "" && TrimRight(s) <= s
    decreases |s|
  {
    if Space(s[|s| - 1]) { TrimRightKeeps(s[..|s| - 1]); }
  }

  /** What the value of the line is after the comment has been removed. */
  lemma ValueText(s: string)
    ensures var v, text := Quoted(Escape(s)), Trim(BeforeComment(Quoted(Escape(s)), false));
            if HashesInside(s) then text == v
            else exists k: nat :: k <= |Escape(s)| && text == "\"" + Escape(s)[..k]
  {
    var v, e := Quoted(Escape(s)), Escape(s) + "\"";
    assert v[1..] == e && v[0] == '"';
    CommentCut(s, true);
    NoCommentIsParity(s, true);
    var cut := "\"" + BeforeComment(e, true);
    assert BeforeComment(v, false) == cut;
    if HashesInside(s) {
      TrimNothing(v);
    } else {
      TrimRightKeeps(cut);
      var text := TrimRight(cut);
      assert text == "\"" + Escape(s)[..|text| - 1];
    }
  }

  lemma ValueKept(s: string)
    ensures var text := Trim(BeforeComment(Quoted(Escape(s)), false));
            if Survives(s) then ParseValue(text) == Ok(Str(s)) else ParseValue(text).Err?
  {
    var text := Trim(BeforeComment(Quoted(Escape(s)), false));
    ValueText(s);
    if HashesInside(s) {
      assert text[1..] == Escape(s) + "\"";
      ReadEscaped(s, "");
      assert "" + s == s;
    } else {
      var k: nat :| k <= |Escape(s)| && text == "\"" + Escape(s)[..k];
      assert text[1..] == Escape(s)[..k];
      PrefixRefused(s, k, "");
    }
  }

  /** The line that binds a key to a text with its quotes escaped is read back exactly if the text fits, does not
      end in a backslash and has every # behind an even number of quotes; otherwise the line is refused. */
  lemma LineKeeps(d: Doc, key: string, s: string)
    requires KeyOk(key) && |d.entries| < MAX_ENTRIES && |EscapedLine(key, s)| < MAX_LINE
    ensures Survives(s) ==> ParseLine(d, EscapedLine(key, s))
                            == Ok(d.(entries := d.entries + [Entry(d.section, key, Str(s), d.index)]))
    ensures !Survives(s) ==> ParseLine(d, EscapedLine(key, s)).Err?
  {
    var line, v := EscapedLine(key, s), Quoted(Escape(s));
    LineParts(key, v);
    TrimNothing(line);
    TrimKey(key);
    TrimOneBefore(v);
    ValueKept(s);
  }

  lemma LineParts(key: string, v: string)
    requires KeyOk(key)
    ensures var line := key + " = " + v;
            && line[0] == key[0] && (v != "" ==> line[|line| - 1] == v[|v| - 1])
            && IndexOf(line, '=') == |key| + 1
            && line[..|key| + 1] == key + " " && line[|key| + 2..] == " " + v
  {
    IndexOfIs(key + " ", '=', " " + v);
    assert key + " = " + v == (key + " ") + ['='] + (" " + v);
  }

  /** For example, a quoted word with a # in it is refused, although the same without the # is read. */
  lemma HashInWord(d: Doc, key: string)
    requires KeyOk(key) && |d.entries| < MAX_ENTRIES && |EscapedLine(key, "\"#\"")| < MAX_LINE
    ensures ParseLine(d, EscapedLine(key, "\"#\"")).Err? && Survives("\"\"")
  {
    assert "\"#\""[..1] == "\"" && "\""[..0] == "";
    assert Quotes("\"") == 1 && "\"#\""[1] == '#';
    LineKeeps(d, key, "\"#\"");
  }

  // ------------------------------------------------------ strings in arrays

  /** How many backslashes stand right before place `i`. */
  function Backslashes(p: string, i: nat): nat
    requires i <= |p|
  {
    if i > 0 && p[i - 1] == '\\' then Backslashes(p, i - 1) + 1 else 0
  }

  /** The string whose text starts at `p` ends at place `n`: the first quote without a backslash before it. */
  ghost predicate EndsAt(p: string, n: nat) {
    && n < |p| && p[n] == '"' && Backslashes(p, n) == 0
    && forall i :: 0 <= i < n && p[i] == '"' ==> Backslashes(p, i) > 0
  }

  /** The string parser reads from `k` on up to the place where the string ends, and no less and no more. */
  lemma {:induction false} StringEnds(p: string, k: nat, out: string) returns (n: nat)
    requires k <= |p| && StringFrom(p[k..], out).Ok?
    requires k < |p| && p[k] == '"' ==> Backslashes(p, k) == 0
    requires forall i :: 0 <= i < k && p[i] == '"' ==> Backslashes(p, i) > 0
    ensures k <= n && EndsAt(p, n)
    ensures StringFrom(p[k..n + 1], out) == StringFrom(p[k..], out) && StringFrom(p[k..n], out).Err?
    decreases |p| - k
  {
    if p[k] == '"' {
      n := k;
      assert p[k..n + 1] == "\"" && p[k..n] == "";
    } else if p[k] == '\\' && k + 1 < |p| && p[k + 1] == '"' {
      assert p[k..][2..] == p[k + 2..];
      n := StringEnds(p, k + 2, out + ['"']);
      assert p[k..n + 1][2..] == p[k + 2..n + 1] && p[k..n][2..] == p[k + 2..n];
    } else {
      assert p[k..][1..] == p[k + 1..];
      n := StringEnds(p, k + 1, out + [p[k]]);
      assert p[k..n + 1][1..] == p[k + 1..n + 1] && p[k..n][1..] == p[k + 1..n];
    }
  }

  /** Every quote inside the string has an odd number of backslashes before it. */
  ghost predicate OddEscapes(p: string, k: nat, n: nat)
    requires n <= |p|
  {
    forall i :: k <= i < n && p[i] == '"' ==> Backslashes(p, i) % 2 == 1
  }

  lemma {:induction false} SkipsTo(p: string, k: nat, n: nat)
    requires EndsAt(p, n) && k <= n && Backslashes(p, k) % 2 == 0
    ensures SkipString(p[k..]) == p[n + 1..] <==> OddEscapes(p, k, n)
    decreases n - k
  {
    if p[k] == '"' {
      assert p[k..][1..] == p[k + 1..];
      assert k < n ==> |p[k + 1..]| != |p[n + 1..]|;
    } else if p[k] == '\\' {
      assert k + 1 != n;
      assert p[k..][2..] == p[k + 2..];
      SkipsTo(p, k + 2, n);
    } else {
      assert p[k..][1..] == p[k + 1..];
      SkipsTo(p, k + 1, n);
    }
  }

  /** Behind a string the array parser goes on where the string ended, exactly if every quote inside the string has
      an odd number of backslashes before it; otherwise it reads a part of the string again. */
  lemma SkipAgrees(p: string) returns (n: nat)
    requires StringFrom(p, "").Ok?
    ensures EndsAt(p, n) && StringFrom(p[..n + 1], "") == StringFrom(p, "") && StringFrom(p[..n], "").Err?
    ensures SkipString(p) == p[n + 1..] <==> OddEscapes(p, 0, n)
  {
    assert p[0..] == p;
    n := StringEnds(p, 0, "");
    SkipsTo(p, 0, n);
  }

  /** For example, if the first of several items is two backslashes, the separator behind it is taken into the item,
      and the second item is nevertheless read as well. */
  lemma ReadTwice(items: seq<string>)
    requires 0 < |items| < MAX_ITEMS && forall k :: 0 <= k < |items| ==> PlainText(items[k])
    ensures ItemsFrom(ShowItems([BACKSLASHES] + items), []) == Ok([SWALLOWED] + items)
  {
    var rest, text := Rest(items), Quoted(BACKSLASHES) + Rest(items);
    assert ([BACKSLASHES] + items)[1..] == items;
    assert ShowItems([BACKSLASHES] + items) == text;
    Swallows(rest);
    assert text[0] == '"' && text[1..] == BACKSLASHES + ("\"" + rest);
    assert SkipBlanks(text) == text && [] + [SWALLOWED] == [SWALLOWED];
    RestRead(items, [SWALLOWED]);
  }

  const BACKSLASHES := ['\\', '\\']

  const SWALLOWED := ['\\', '"', ',', ' ']

  lemma Swallows(rest: string)
    requires |rest| > 2 && rest[0] == ',' && rest[1] == ' ' && rest[2] == '"'
    ensures StringFrom(BACKSLASHES + ("\"" + rest), "") == Ok(SWALLOWED)
    ensures SkipString(BACKSLASHES + ("\"" + rest)) == rest
  {
    var p := BACKSLASHES + ("\"" + rest);
    assert p[1..][2..] == rest && p[2..][0] == '"' && p[2..][1..] == rest;
    assert rest[1..][1..] == rest[2..];
    var e, f, g := ['\\'], ['\\', '"'], ['\\', '"', ','];
    assert [] + e == e && e + ['"'] == f && f + [','] == g && g + [' '] == SWALLOWED;
    assert StringFrom(p, "") == StringFrom(p[1..], e);
    assert StringFrom(p[1..], e) == StringFrom(rest, f);
    assert StringFrom(rest, f) == StringFrom(rest[1..], g);
    assert StringFrom(rest[1..], g) == StringFrom(rest[2..], SWALLOWED);
  }
}
