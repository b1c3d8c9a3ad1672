/** The slug the product form proposes for a title. */
module Slug {
  import opened Wrappers

  /** [a-z0-9] */
  predicate Plain(c: char) {
    'a' <= c <= 'z' || '0' <= c <= '9'
  }

  lemma PlainIsLowerOrDigit(c: char)
    ensures Plain(c) <==> c in "abcdefghijklmnopqrstuvwxyz" || c in "0123456789"
  {
    if 'a' <= c <= 'z' {
      assert c == "abcdefghijklmnopqrstuvwxyz"[c as int - 'a' as int];
    }
    if '0' <= c <= '9' {
      assert c == "0123456789"[c as int - '0' as int];
    }
  }

  /** Every run of other characters becomes one hyphen. */
  function Dash(s: string): (r: string)
    ensures r == "" <==> s == ""
    ensures s != "" ==> r[0] == if Plain(s[0]) then s[0] else '-'
  {
    if s == "" then ""
    else if Plain(s[0]) then [s[0]] + Dash(s[1..])
    else if |s| > 1 && !Plain(s[1]) then Dash(s[1..])
    else "-" + Dash(s[1..])
  }

  /** A hyphen at either end is dropped. */
  function Trim(s: string): string {
    var t := if s != "" && s[0] == '-' then s[1..] else s;
    if t != "" && t[|t| - 1] == '-' then t[..|t| - 1] else t
  }

  /** lower stands for toLowerCase. */
  function Slugify(lower: string -> string, text: Option<string>): string {
    Trim(Dash(lower(if text.Some? then text.value else "")))
  }

  /** It leaves alone every string over a-z, 0-9 and hyphen; of other strings nothing is asked. */
  ghost predicate Lowers(lower: string -> string) {
    forall s :: (forall c :: c in s ==> Plain(c) || c == '-') ==> lower(s) == s
  }

  /** Over a-z, 0-9 and hyphen, with no leading, trailing or doubled hyphen. */
  predicate IsSlug(s: string) {
    && (forall i :: 0 <= i < |s| ==> Plain(s[i]) || s[i] == '-')
    && (s != "" ==> s[0] != '-' && s[|s| - 1] != '-')
    && (forall i :: 0 <= i < |s| - 1 ==> s[i] != '-' || s[i + 1] != '-')
  }

  // ---- What a slug says: the words of its text ----

  /** The maximal runs of plain characters. */
  function Words(s: string): (r: seq<string>)
    ensures s != "" && Plain(s[0]) ==> r != []
  {
    if s == "" then []
    else
      var rest := Words(s[1..]);
      if !Plain(s[0]) then rest
      else if |s| > 1 && Plain(s[1]) then [[s[0]] + rest[0]] + rest[1..]
      else [[s[0]]] + rest
  }

  function Join(words: seq<string>): string {
    if words == [] then ""
    else if |words| == 1 then words[0]
    else words[0] + "-" + Join(words[1..])
  }

  lemma WordsStep(s: string)
    requires s != ""
    ensures var rest := Words(s[1..]);
            Words(s) == if !Plain(s[0]) then rest
                        else if |s| > 1 && Plain(s[1]) && rest != [] then [[s[0]] + rest[0]] + rest[1..]
                        else [[s[0]]] + rest
    ensures Plain(s[0]) ==> Words(s) != []
    ensures Words("") == []
  {
  }

  /** Any character that is not plain separates words. */
  lemma {:induction false} WordsSplit(a: string, c: char, b: string)
    requires !Plain(c)
    ensures Words(a + [c] + b) == Words(a) + Words(b)
  {
    hide Words, Plain;
    var s := a + [c] + b;
    WordsStep(s);
    if a == "" {
      assert s[1..] == b;
    } else {
      WordsSplit(a[1..], c, b);
      WordsStep(a);
      assert s[1..] == a[1..] + [c] + b;
      if |a| > 1 {
        WordsStep(a[1..]);
        assert s[1] == a[1];
      } else {
        assert s[1] == c && a[1..] == "";
      }
    }
  }

  /** A text of plain characters is one word. */
  lemma {:induction false} OneWord(s: string)
    requires s != "" && forall i :: 0 <= i < |s| ==> Plain(s[i])
    ensures Words(s) == [s]
  {
    if |s| > 1 {
      OneWord(s[1..]);
      assert [s[0]] + s[1..] == s;
    } else {
      assert s == [s[0]] && Words(s[1..]) == [];
    }
  }

  /** Joining puts one hyphen between what it joins. */
  lemma {:induction false} JoinMeans(a: seq<string>, b: seq<string>)
    ensures Join([]) == "" && forall w :: Join([w]) == w
    ensures a != [] && b != [] ==> Join(a + b) == Join(a) + "-" + Join(b)
  {
    if a != [] && b != [] {
      assert (a + b)[1..] == a[1..] + b;
      JoinMeans(a[1..], b);
      if |a| == 1 {
        assert a[1..] + b == b;
      }
    }
  }

  lemma {:induction false} DashKeepsWords(s: string)
    ensures Words(Dash(s)) == Words(s)
  {
    if s != "" {
      DashKeepsWords(s[1..]);
      if Plain(s[0]) {
        assert Dash(s)[1..] == Dash(s[1..]);
      } else if |s| == 1 || Plain(s[1]) {
        assert Dash(s)[1..] == Dash(s[1..]);
      }
    }
  }

  lemma {:induction false} TrailingHyphenIsNoWord(s: string)
    ensures Words(s + "-") == Words(s)
  {
    if s == "" {
      assert ("-")[1..] == "";
    } else {
      assert (s + "-")[1..] == s[1..] + "-";
      TrailingHyphenIsNoWord(s[1..]);
    }
  }

  lemma TrimKeepsWords(s: string)
    ensures Words(Trim(s)) == Words(s)
  {
    var t := if s != "" && s[0] == '-' then s[1..] else s;
    assert Words(t) == Words(s);
    if t != "" && t[|t| - 1] == '-' {
      assert t == t[..|t| - 1] + "-";
      TrailingHyphenIsNoWord(t[..|t| - 1]);
    }
  }

  /** No doubled hyphen and no other character than a hyphen that is not plain. */
  predicate Dashed(s: string) {
    && (forall i :: 0 <= i < |s| ==> Plain(s[i]) || s[i] == '-')
    && (forall i :: 0 <= i < |s| - 1 ==> s[i] != '-' || s[i + 1] != '-')
  }

  lemma {:induction false} DashIsDashed(s: string)
    ensures Dashed(Dash(s))
  {
    if s != "" {
      DashIsDashed(s[1..]);
      if Plain(s[0]) || |s| == 1 || Plain(s[1]) {
        var rest := Dash(s[1..]);
        assert Dash(s) == [Dash(s)[0]] + rest;
        assert rest != "" && Dash(s)[0] == '-' ==> rest[0] != '-';
      }
    }
  }

  lemma {:induction false} DashedIsKept(s: string)
    requires Dashed(s)
    ensures Dash(s) == s
  {
    if s != "" {
      DashedIsKept(s[1..]);
    }
  }

  /** A string without doubled or trailing hyphens is its words joined. */
  lemma {:induction false} JoinsItsWords(s: string)
    requires Dashed(s) && (s != "" ==> s[|s| - 1] != '-')
    ensures s == (if s != "" && s[0] == '-' then "-" else "") + Join(Words(s))
  {
    if s != "" {
      JoinsItsWords(s[1..]);
    }
  }

  lemma TrimIsSlug(s: string)
    requires Dashed(s)
    ensures IsSlug(Trim(s)) && Dashed(Trim(s))
  {
  }

  /** slugify joins the words of the lowered text with single hyphens. */
  lemma SlugifyJoinsWords(lower: string -> string, text: Option<string>)
    ensures Slugify(lower, text) == Join(Words(lower(if text.Some? then text.value else "")))
    ensures IsSlug(Slugify(lower, text))
  {
    hide Dash, Trim, Words, Join, Dashed;
    var s := lower(if text.Some? then text.value else "");
    DashKeepsWords(s);
    DashIsDashed(s);
    TrimKeepsWords(Dash(s));
    TrimIsSlug(Dash(s));
    JoinsItsWords(Trim(Dash(s)));
    assert "" + Join(Words(s)) == Join(Words(s));
  }

  /** Slugs are what slugify leaves alone: its outputs are exactly the slugs. */
  lemma FixedIffSlug(lower: string -> string, s: string)
    requires Lowers(lower)
    ensures Slugify(lower, Some(s)) == s <==> IsSlug(s)
    ensures IsSlug(s) <==> exists text :: Slugify(lower, text) == s
  {
    SlugifyJoinsWords(lower, Some(s));
    if IsSlug(s) {
      assert lower(s) == s;
      DashedIsKept(s);
      assert Slugify(lower, Some(s)) == s;
    }
    forall text | Slugify(lower, text) == s ensures IsSlug(s) {
      SlugifyJoinsWords(lower, text);
    }
  }

  lemma Idempotent(lower: string -> string, text: Option<string>)
    requires Lowers(lower)
    ensures Slugify(lower, Some(Slugify(lower, text))) == Slugify(lower, text)
  {
    SlugifyJoinsWords(lower, text);
    FixedIffSlug(lower, Slugify(lower, text));
  }
}
