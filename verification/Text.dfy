/** Text normalisation and shingling ahead of MinHash. */
module Text {

  const SHINGLE_SIZE: nat := 3

  /** What normalisation needs to know about characters. Unicode tables are parameters. */
  datatype CharModel = CharModel(isSpace: char -> bool, isAlnum: char -> bool, lower: char -> string)
  {
    /** Facts about Unicode that the theorems rely on. */
    ghost predicate Lawful() {
      && isSpace(' ')
      && (forall c :: isAlnum(c) ==> !isSpace(c))
      && !isSpace('\'')
      && !isAlnum('/') && !isAlnum('@') && !isAlnum('$') && !isAlnum('#')
      && lower('\'') == "'"
      && (forall c, d :: d in lower(c) ==> lower(d) == [d])
    }

    predicate Kept(c: char) {
      isAlnum(c) || c == '\''
    }

    function WordLength(s: string): (n: nat)
      ensures n <= |s|
      ensures forall i :: 0 <= i < n ==> !isSpace(s[i])
      ensures n < |s| ==> isSpace(s[n])
    {
      if s == "" || isSpace(s[0]) then 0 else 1 + WordLength(s[1..])
    }

    /** Rust's `split_whitespace`. */
    function Split(s: string): (words: seq<string>)
      ensures forall w :: w in words ==> IsWord(w)
      decreases |s|
    {
      if s == "" then []
      else if isSpace(s[0]) then Split(s[1..])
      else
        var n := WordLength(s);
        assert n > 0;
        [s[..n]] + Split(s[n..])
    }

    predicate IsWord(w: string) {
      w != "" && forall i :: 0 <= i < |w| ==> !isSpace(w[i])
    }

    function Lower(s: string): string {
      if s == "" then "" else lower(s[0]) + Lower(s[1..])
    }

    /** Only letters, digits and apostrophes survive. */
    function Clean(s: string): (t: string)
      ensures forall c :: c in t <==> c in s && Kept(c)
    {
      if s == "" then "" else (if Kept(s[0]) then [s[0]] else "") + Clean(s[1..])
    }

    /** The words one raw token contributes: none or one. */
    function CleanToken(token: string): seq<string> {
      var lowered := Lower(token);
      if IsLinkOrTag(lowered) || Clean(lowered) == "" then [] else [Clean(lowered)]
    }

    function CleanTokens(tokens: seq<string>): seq<string> {
      if tokens == [] then []
      else CleanTokens(tokens[..|tokens| - 1]) + CleanToken(tokens[|tokens| - 1])
    }

    /** The raw tokens that are neither links nor tags. */
    function Body(tokens: seq<string>): (body: seq<string>)
      ensures forall t :: t in body <==> t in tokens && !IsLinkOrTag(Lower(t))
    {
      if tokens == [] then []
      else
        var last := tokens[|tokens| - 1];
        Body(tokens[..|tokens| - 1]) + if IsLinkOrTag(Lower(last)) then [] else [last]
    }

    function Normalize(text: string): string {
      Join(CleanTokens(Split(text)))
    }

    function Shingles(text: string): seq<string> {
      var words := Split(Normalize(text));
      if words == [] then []
      else if |words| < SHINGLE_SIZE then [Join(words)]
      else
        seq(|words| - SHINGLE_SIZE + 1, i requires 0 <= i <= |words| - SHINGLE_SIZE =>
          Join(words[i..i + SHINGLE_SIZE]))
    }
  }

  predicate IsLinkOrTag(lowered: string) {
    || "http://" <= lowered
    || "https://" <= lowered
    || (lowered != "" && lowered[0] in {'@', '$', '#'})
  }

  function Join(words: seq<string>): string {
    if words == [] then ""
    else if |words| == 1 then words[0]
    else words[0] + " " + Join(words[1..])
  }

  /** The buffer-building loop computes the joined clean tokens. */
  method NormalizeText(m: CharModel, text: string) returns (out: string)
    ensures out == m.Normalize(text)
  {
    out := "";
    var tokens := m.Split(text);
    for i := 0 to |tokens|
      invariant out == Join(m.CleanTokens(tokens[..i]))
    {
      CleanTokensSnoc(m, tokens, i);
      CleanTokensAreNonempty(m, tokens[..i]);
      var lowered := m.Lower(tokens[i]);
      if IsLinkOrTag(lowered) {
        continue;
      }
      var cleaned := m.Clean(lowered);
      if cleaned == "" {
        continue;
      }
      JoinSnoc(m.CleanTokens(tokens[..i]), cleaned);
      if out != "" {
        out := out + " ";
      }
      out := out + cleaned;
    }
    assert tokens[..|tokens|] == tokens;
  }

  lemma CleanTokensAreNonempty(m: CharModel, tokens: seq<string>)
    ensures forall w :: w in m.CleanTokens(tokens) ==> w != "" && forall c :: c in w ==> m.Kept(c)
  {
  }

  lemma CleanTokensSnoc(m: CharModel, tokens: seq<string>, i: nat)
    requires i < |tokens|
    ensures m.CleanTokens(tokens[..i + 1]) == m.CleanTokens(tokens[..i]) + m.CleanToken(tokens[i])
    ensures m.CleanToken(tokens[i]) == [] ==> m.CleanTokens(tokens[..i + 1]) == m.CleanTokens(tokens[..i])
  {
    assert tokens[..i + 1][..i] == tokens[..i];
  }

  lemma {:induction false} JoinSnoc(words: seq<string>, w: string)
    requires forall v :: v in words ==> v != ""
    ensures Join(words + [w]) == (if Join(words) == "" then w else Join(words) + " " + w)
    ensures Join(words) == "" <==> words == []
  {
    if |words| > 1 {
      assert forall v :: v in words[1..] ==> v in words;
      JoinSnoc(words[1..], w);
      assert (words + [w])[1..] == words[1..] + [w];
      assert words[0] + " " + (Join(words[1..]) + " " + w) == words[0] + " " + Join(words[1..]) + " " + w;
    } else if |words| == 1 {
      assert words[0] in words;
      assert (words + [w])[1..] == [w];
    }
  }

  // ---------------------------------------------------------------- splitting

  lemma {:induction false} SplitOneWord(m: CharModel, w: string)
    requires m.IsWord(w)
    ensures m.Split(w) == [w]
  {
    var n := m.WordLength(w);
    assert n == |w|;
    assert w[..n] == w && w[n..] == "";
  }

  lemma {:induction false} WordLengthAtSpace(m: CharModel, a: string, sp: char, b: string)
    requires m.isSpace(sp)
    ensures m.WordLength(a + [sp] + b) == m.WordLength(a)
  {
    if a == "" {
      assert (a + [sp] + b)[0] == sp;
    } else {
      assert (a + [sp] + b)[1..] == a[1..] + [sp] + b;
      WordLengthAtSpace(m, a[1..], sp, b);
    }
  }

  lemma SplitFirstWord(m: CharModel, s: string)
    requires s != "" && !m.isSpace(s[0])
    ensures m.WordLength(s) > 0
    ensures m.Split(s) == [s[..m.WordLength(s)]] + m.Split(s[m.WordLength(s)..])
  {
  }

  /** A whitespace character separates: what stands on either side splits on its own. */
  lemma {:induction false} SplitAtSpace(m: CharModel, a: string, sp: char, b: string)
    requires m.isSpace(sp)
    ensures m.Split(a + [sp] + b) == m.Split(a) + m.Split(b)
    decreases |a|
  {
    var s := a + [sp] + b;
    if a == "" {
      assert s[1..] == b;
    } else if m.isSpace(a[0]) {
      assert s[1..] == a[1..] + [sp] + b;
      SplitAtSpace(m, a[1..], sp, b);
    } else {
      WordLengthAtSpace(m, a, sp, b);
      var n := m.WordLength(a);
      SplitFirstWord(m, a);
      SplitFirstWord(m, s);
      assert s[..n] == a[..n] && s[n..] == a[n..] + [sp] + b;
      SplitAtSpace(m, a[n..], sp, b);
      assert [a[..n]] + (m.Split(a[n..]) + m.Split(b)) == [a[..n]] + m.Split(a[n..]) + m.Split(b);
    }
  }

  /** Splitting undoes joining, for any list of words. */
  lemma {:induction false} SplitJoin(m: CharModel, words: seq<string>)
    requires m.isSpace(' ')
    requires forall w :: w in words ==> m.IsWord(w)
    ensures m.Split(Join(words)) == words
  {
    if |words| == 1 {
      SplitOneWord(m, words[0]);
    } else if |words| > 1 {
      SplitAtSpace(m, words[0], ' ', Join(words[1..]));
      SplitOneWord(m, words[0]);
      SplitJoin(m, words[1..]);
    }
  }

  // ------------------------------------------------------------ normalisation

  lemma {:induction false} LowerFixed(m: CharModel, s: string)
    ensures m.Lawful() ==> forall c :: c in m.Lower(s) ==> m.lower(c) == [c]
    ensures (forall c :: c in s ==> m.lower(c) == [c]) ==> m.Lower(s) == s
  {
    if s != "" {
      LowerFixed(m, s[1..]);
    }
  }

  lemma {:induction false} CleanFixed(m: CharModel, s: string)
    requires forall c :: c in s ==> m.Kept(c)
    ensures m.Clean(s) == s
  {
    if s != "" {
      CleanFixed(m, s[1..]);
    }
  }

  lemma {:induction false} SchemeHasSlash(w: string)
    ensures "http://" <= w || "https://" <= w ==> '/' in w
  {
    if "http://" <= w {
      assert w[5] == '/';
    } else if "https://" <= w {
      assert w[6] == '/';
    }
  }

  lemma {:induction false} KeptIsWord(m: CharModel, w: string)
    requires m.Lawful()
    requires w != "" && forall c :: c in w ==> m.Kept(c)
    ensures m.IsWord(w) && !IsLinkOrTag(w)
  {
    SchemeHasSlash(w);
    assert forall i :: 0 <= i < |w| ==> w[i] in w;
  }

  lemma {:induction false} CleanTokenIdempotent(m: CharModel, token: string)
    requires m.Lawful()
    requires m.CleanToken(token) != []
    ensures m.IsWord(m.CleanToken(token)[0])
    ensures m.CleanToken(m.CleanToken(token)[0]) == m.CleanToken(token)
  {
    var w := m.CleanToken(token)[0];
    LowerFixed(m, token);
    assert forall c :: c in w ==> m.lower(c) == [c];
    KeptIsWord(m, w);
    LowerFixed(m, w);
    CleanFixed(m, w);
  }

  lemma {:induction false} CleanTokensIdempotent(m: CharModel, tokens: seq<string>)
    requires m.Lawful()
    ensures m.CleanTokens(m.CleanTokens(tokens)) == m.CleanTokens(tokens)
    ensures forall w :: w in m.CleanTokens(tokens) ==> m.IsWord(w)
  {
    if tokens != [] {
      var front, last := tokens[..|tokens| - 1], tokens[|tokens| - 1];
      CleanTokensIdempotent(m, front);
      var cf, cl := m.CleanTokens(front), m.CleanToken(last);
      if cl != [] {
        CleanTokenIdempotent(m, last);
        assert (cf + cl)[..|cf|] == cf;
      } else {
        assert cf + cl == cf;
      }
    }
  }

  lemma {:induction false} CleanTokensAppend(m: CharModel, a: seq<string>, b: seq<string>)
    ensures m.CleanTokens(a + b) == m.CleanTokens(a) + m.CleanTokens(b)
  {
    if b == [] {
      assert a + b == a;
    } else {
      var front, last := b[..|b| - 1], b[|b| - 1];
      assert (a + b)[..|a + b| - 1] == a + front;
      CleanTokensAppend(m, a, front);
    }
  }

  ghost predicate StartsWith(s: string, prefix: string) {
    exists rest :: s == prefix + rest
  }

  /** What a token loses: it is a link, a mention, a cashtag or a hashtag, or has nothing to keep. */
  ghost predicate IsDropped(m: CharModel, lowered: string) {
    || StartsWith(lowered, "http://") || StartsWith(lowered, "https://")
    || StartsWith(lowered, "@") || StartsWith(lowered, "$") || StartsWith(lowered, "#")
    || forall i :: 0 <= i < |lowered| ==> !m.isAlnum(lowered[i]) && lowered[i] != '\''
  }

  lemma {:induction false} StartIsPrefix(s: string, prefix: string)
    ensures StartsWith(s, prefix) <==> prefix <= s
  {
    if prefix <= s {
      assert s == prefix + s[|prefix|..];
    }
  }

  /** One character is kept exactly when it is a letter, a digit or an apostrophe. */
  lemma {:induction false} CleanOne(m: CharModel, c: char)
    ensures m.Clean([c]) == if m.isAlnum(c) || c == '\'' then [c] else ""
  {
    assert [c][1..] == "";
  }

  lemma CleanHead(m: CharModel, c: char, s: string)
    ensures m.Clean([c] + s) == m.Clean([c]) + m.Clean(s)
  {
    assert ([c] + s)[1..] == s && [c][1..] == "";
  }

  ghost predicate GoesByCharacter(f: string -> string) {
    f("") == "" && forall c, s :: f([c] + s) == f([c]) + f(s)
  }

  lemma {:induction false} AppendsByCharacter(f: string -> string, s: string, t: string)
    requires GoesByCharacter(f)
    ensures f(s + t) == f(s) + f(t)
  {
    if s == "" {
      assert s + t == t;
    } else {
      AppendsByCharacter(f, s[1..], t);
      assert s == [s[0]] + s[1..] && s + t == [s[0]] + (s[1..] + t);
      assert f(s) == f([s[0]]) + f(s[1..]) && f(s + t) == f([s[0]]) + f(s[1..] + t);
      assert f([s[0]]) + (f(s[1..]) + f(t)) == f([s[0]]) + f(s[1..]) + f(t);
    }
  }

  /** Cleaning goes character by character, in order: it may be cut anywhere. */
  lemma {:induction false} CleanAppends(m: CharModel, s: string, t: string)
    ensures m.Clean(s + t) == m.Clean(s) + m.Clean(t)
  {
    var clean: string -> string := w => m.Clean(w);
    forall c, w
      ensures clean([c] + w) == clean([c]) + clean(w)
    {
      CleanHead(m, c, w);
    }
    AppendsByCharacter(clean, s, t);
  }

  /** A token leaves no word exactly when it is dropped, and otherwise the one word of what it keeps. */
  lemma {:induction false} DroppedExactlyWhen(m: CharModel, token: string)
    ensures m.CleanToken(token) == [] <==> IsDropped(m, m.Lower(token))
    ensures m.CleanToken(token) == [] || m.CleanToken(token) == [m.Clean(m.Lower(token))]
  {
    var s := m.Lower(token);
    StartIsPrefix(s, "http://");
    StartIsPrefix(s, "https://");
    StartIsPrefix(s, "@");
    StartIsPrefix(s, "$");
    StartIsPrefix(s, "#");
    if i :| 0 <= i < |s| && (m.isAlnum(s[i]) || s[i] == '\'') {
      assert s[i] in s;
      assert s[i] in m.Clean(s);
    } else if m.Clean(s) != "" {
      assert m.Clean(s)[0] in m.Clean(s);
      assert m.Clean(s)[0] in s;
    }
  }

  /** The words of the normalised text are exactly the cleaned tokens. */
  lemma {:induction false} NormalizedWords(m: CharModel, text: string)
    requires m.Lawful()
    ensures m.Split(m.Normalize(text)) == m.CleanTokens(m.Split(text))
  {
    CleanTokensIdempotent(m, m.Split(text));
    SplitJoin(m, m.CleanTokens(m.Split(text)));
  }

  lemma {:induction false} NormalizeIdempotent(m: CharModel, text: string)
    requires m.Lawful()
    ensures m.Normalize(m.Normalize(text)) == m.Normalize(text)
    ensures m.Shingles(m.Normalize(text)) == m.Shingles(text)
  {
    NormalizedWords(m, text);
    CleanTokensIdempotent(m, m.Split(text));
  }

  lemma {:induction false} CleanTokensOfBody(m: CharModel, tokens: seq<string>)
    ensures m.CleanTokens(m.Body(tokens)) == m.CleanTokens(tokens)
  {
    if tokens != [] {
      var front, last := tokens[..|tokens| - 1], tokens[|tokens| - 1];
      CleanTokensOfBody(m, front);
      if IsLinkOrTag(m.Lower(last)) {
        assert m.Body(tokens) == m.Body(front);
      } else {
        CleanTokensAppend(m, m.Body(front), [last]);
        assert [last][..0] == [];
      }
    }
  }

  /** Texts with one body, whatever links, handles, cashtags and hashtags stand in either, have one set of shingles. */
  lemma {:induction false} LinksAndTagsAreInvisible(m: CharModel, s: string, t: string)
    requires m.Body(m.Split(s)) == m.Body(m.Split(t))
    ensures m.Normalize(s) == m.Normalize(t)
    ensures m.Shingles(s) == m.Shingles(t)
  {
    CleanTokensOfBody(m, m.Split(s));
    CleanTokensOfBody(m, m.Split(t));
  }

  lemma {:induction false} BodyAppend(m: CharModel, a: seq<string>, b: seq<string>)
    ensures m.Body(a + b) == m.Body(a) + m.Body(b)
  {
    if b == [] {
      assert a + b == a;
    } else {
      var front, last := b[..|b| - 1], b[|b| - 1];
      assert (a + b)[..|a + b| - 1] == a + front;
      BodyAppend(m, a, front);
    }
  }

  /** Links and tags written at the start, in the middle or at the end of a text leave its body alone. */
  lemma {:induction false} InsertedLinksAndTags(m: CharModel, a: string, noise: string, b: string)
    requires m.Lawful()
    requires forall t :: t in m.Split(noise) ==> IsLinkOrTag(m.Lower(t))
    ensures m.Body(m.Split(noise + [' '] + b)) == m.Body(m.Split(b))
    ensures m.Body(m.Split(a + [' '] + (noise + [' '] + b))) == m.Body(m.Split(a + [' '] + b))
    ensures m.Body(m.Split(a + [' '] + noise)) == m.Body(m.Split(a))
  {
    SplitAtSpace(m, noise, ' ', b);
    SplitAtSpace(m, a, ' ', noise + [' '] + b);
    SplitAtSpace(m, a, ' ', b);
    SplitAtSpace(m, a, ' ', noise);
    BodyAppend(m, m.Split(noise), m.Split(b));
    BodyAppend(m, m.Split(a), m.Split(noise) + m.Split(b));
    BodyAppend(m, m.Split(a), m.Split(b));
    BodyAppend(m, m.Split(a), m.Split(noise));
    NoiseHasNoBody(m, m.Split(noise));
  }

  lemma NoiseHasNoBody(m: CharModel, tokens: seq<string>)
    requires forall t :: t in tokens ==> IsLinkOrTag(m.Lower(t))
    ensures m.Body(tokens) == []
  {
    if m.Body(tokens) != [] {
      assert m.Body(tokens)[0] in m.Body(tokens);
    }
  }

  /**
   * A text with any word left has `max(1, words - 2)` shingles: every run of three words, or the
   * whole normalised text when it is shorter.
   */
  lemma {:induction false} ShingleCount(m: CharModel, text: string)
    requires m.Lawful()
    ensures var words := m.CleanTokens(m.Split(text));
            && (words == [] <==> m.Shingles(text) == [])
            && (words != [] ==> |m.Shingles(text)| == if |words| <= SHINGLE_SIZE then 1 else |words| - 2)
            && (0 < |words| < SHINGLE_SIZE ==> m.Shingles(text) == [m.Normalize(text)])
            && (forall i :: 0 <= i <= |words| - SHINGLE_SIZE ==>
                  m.Split(m.Shingles(text)[i]) == words[i..i + SHINGLE_SIZE])
  {
    NormalizedWords(m, text);
    var words := m.CleanTokens(m.Split(text));
    forall i | 0 <= i <= |words| - SHINGLE_SIZE
      ensures m.Split(m.Shingles(text)[i]) == words[i..i + SHINGLE_SIZE]
    {
      ShingleAt(m, text, words, i);
    }
  }

  lemma {:induction false} ShingleAt(m: CharModel, text: string, words: seq<string>, i: nat)
    requires m.Lawful() && m.Split(m.Normalize(text)) == words
    requires i + SHINGLE_SIZE <= |words|
    ensures i < |m.Shingles(text)| && m.Split(m.Shingles(text)[i]) == words[i..i + SHINGLE_SIZE]
  {
    SplitJoin(m, words[i..i + SHINGLE_SIZE]);
  }
}
