/** rewriteImport (server.js:126-134): the global regular-expression
    replacement `/ from ['|"]([^'"]+)['|"]/g` whose callback prefixes every
    specifier `s1` with `/@modules/` unless `s1[0] === '.'` or `s1[1] === '/'`.

    The regular expression is modelled in three layers:
    - `IsClause(t)` holds when `t` is exactly one match of the pattern;
    - `MatchPrefix(s)` is what the engine finds when it tries the pattern at
      the start of `s`: the greedy `[^'"]+` with backtracking selects the
      LONGEST clause that is a prefix of `s`;
    - `Tokens(s)` is the global scan: leftmost, non-overlapping matches, each
      `Clause`, with every character in between a `Plain` piece.
    `Rewrite` then replaces each clause by the callback's result. */
module ImportRewriter {
  import opened Text

  const From: string := " from "
  const ModulesPrefix: string := "/@modules/"

  /** The character class `['|"]` (the `|` is a literal member). */
  predicate IsDelimiter(c: char) {
    c == '\'' || c == '|' || c == '"'
  }

  /** The characters excluded by `[^'"]`. */
  predicate IsQuote(c: char) {
    c == '\'' || c == '"'
  }

  /** `t` is exactly one match of `/ from ['|"]([^'"]+)['|"]/`. */
  predicate IsClause(t: string) {
    && |t| >= 9
    && t[..6] == From
    && IsDelimiter(t[6])
    && IsDelimiter(t[|t| - 1])
    && forall k :: 7 <= k < |t| - 1 ==> !IsQuote(t[k])
  }

  /** The capture group `s1` of a clause. */
  function Specifier(t: string): string
    requires IsClause(t)
  {
    t[7..|t| - 1]
  }

  /** JavaScript `s[i]`: `None` stands for `undefined` past the end. */
  function CharAt(s: string, i: nat): Option<char> {
    if i < |s| then Some(s[i]) else None
  }

  /** The callback's test `s1[0] !== '.' && s1[1] !== '/'`. */
  predicate Redirected(spec: string) {
    CharAt(spec, 0) != Some('.') && CharAt(spec, 1) != Some('/')
  }

  /** The end of the run of non-quote characters that starts at `k`. */
  function RunEnd(s: string, k: nat): (e: nat)
    requires k <= |s|
    ensures k <= e <= |s|
    ensures forall m :: k <= m < e ==> !IsQuote(s[m])
    ensures e < |s| ==> IsQuote(s[e])
    decreases |s| - k
  {
    if k == |s| || IsQuote(s[k]) then k else RunEnd(s, k + 1)
  }

  /** The last `|` in `s[lo..hi]`, if any. */
  function LastBar(s: string, lo: nat, hi: nat): (r: Option<nat>)
    requires lo <= hi <= |s|
    ensures r.Some? ==> lo <= r.value < hi && s[r.value] == '|'
    ensures r.Some? ==> forall m :: r.value < m < hi ==> s[m] != '|'
    ensures r.None? ==> forall m :: lo <= m < hi ==> s[m] != '|'
    decreases hi - lo
  {
    if hi == lo then None
    else if s[hi - 1] == '|' then Some(hi - 1)
    else LastBar(s, lo, hi - 1)
  }

  /** One attempt of the pattern at the start of `s`: the length of the
      longest clause that is a prefix of `s`, or `None` when there is none. */
  function MatchPrefix(s: string): (r: Option<nat>)
    ensures r.Some? ==> r.value <= |s| && IsClause(s[..r.value])
    ensures r.Some? ==> forall n :: r.value < n <= |s| ==> !IsClause(s[..n])
    ensures r.None? ==> forall n :: 0 <= n <= |s| ==> !IsClause(s[..n])
  {
    if |s| < 9 || s[..6] != From || !IsDelimiter(s[6]) then
      NoClauseHere(s);
      None
    else
      var e := RunEnd(s, 7);
      if e == 7 then
        NoClauseHere(s);
        None
      else if e < |s| then
        QuoteClosesRun(s, e);
        Some(e + 1)
      else
        match LastBar(s, 8, e)
        case Some(b) =>
          BarClosesRun(s, b);
          Some(b + 1)
        case None =>
          NoClauseHere(s);
          None
  }

  /** A prefix clause ends at most one character past the run of non-quote
      characters after the opening delimiter, and on a delimiter. */
  lemma ClauseShape(s: string, n: nat)
    requires n <= |s| && IsClause(s[..n])
    ensures s[..6] == From && IsDelimiter(s[6]) && IsDelimiter(s[n - 1]) && n >= 9
    ensures forall k :: 7 <= k < n - 1 ==> !IsQuote(s[k])
  {
    assert s[..n][..6] == s[..6];
    forall k | 7 <= k < n - 1 ensures !IsQuote(s[k]) {
      assert s[..n][k] == s[k];
    }
  }

  lemma NoClauseHere(s: string)
    requires |s| < 9 || s[..6] != From || !IsDelimiter(s[6]) || (|s| > 7 && IsQuote(s[7]))
      || ((forall m :: 7 <= m < |s| ==> !IsQuote(s[m])) && forall m :: 8 <= m < |s| ==> s[m] != '|')
    ensures forall n :: 0 <= n <= |s| ==> !IsClause(s[..n])
  {
    forall n: nat | 0 <= n <= |s| && IsClause(s[..n]) ensures false {
      ClauseShape(s, n);
    }
  }

  lemma QuoteClosesRun(s: string, e: nat)
    requires |s| >= 9 && s[..6] == From && IsDelimiter(s[6])
    requires 7 < e < |s| && e == RunEnd(s, 7)
    ensures IsClause(s[..e + 1])
    ensures forall n :: e + 1 < n <= |s| ==> !IsClause(s[..n])
  {
    assert s[..e + 1][..6] == s[..6];
    forall n: nat | e + 1 < n <= |s| && IsClause(s[..n]) ensures false {
      ClauseShape(s, n);
    }
  }

  lemma BarClosesRun(s: string, b: nat)
    requires |s| >= 9 && s[..6] == From && IsDelimiter(s[6])
    requires RunEnd(s, 7) == |s| && LastBar(s, 8, |s|) == Some(b)
    ensures IsClause(s[..b + 1])
    ensures forall n :: b + 1 < n <= |s| ==> !IsClause(s[..n])
  {
    assert s[..b + 1][..6] == s[..6];
    forall n: nat | b + 1 < n <= |s| && IsClause(s[..n]) ensures false {
      ClauseShape(s, n);
    }
  }

  /** A piece of the scanned text: a character outside every match, or one
      match with its two delimiters and its specifier. */
  datatype Piece = Plain(c: char) | Clause(open: char, spec: string, close: char)

  /** The input text a piece stands for (`s0` for a clause). */
  function Source(p: Piece): string {
    match p
    case Plain(c) => [c]
    case Clause(open, spec, close) => From + [open] + spec + [close]
  }

  predicate WellFormed(p: Piece) {
    p.Clause? ==> IsClause(Source(p)) && Specifier(Source(p)) == p.spec
  }

  function Join(ps: seq<Piece>): string {
    if ps == [] then [] else Source(ps[0]) + Join(ps[1..])
  }

  /** The first piece of a nonempty text: the clause the pattern matches at
      its start, or else its first character. */
  function Head(s: string): (p: Piece)
    requires s != []
    ensures 1 <= |Source(p)| <= |s| && s[..|Source(p)|] == Source(p)
  {
    match MatchPrefix(s)
    case Some(n) =>
      var p := Clause(s[6], s[7..n - 1], s[n - 1]);
      assert Source(p) == s[..n] by {
        assert s[..n] == s[..6] + [s[6]] + s[7..n - 1] + [s[n - 1]];
      }
      p
    case None =>
      Plain(s[0])
  }

  /** The first piece is the clause the pattern matches at the start, with
      its specifier, or a plain character where the pattern does not match. */
  lemma HeadFollowsMatch(s: string)
    requires s != []
    ensures WellFormed(Head(s))
    ensures Head(s).Plain? <==> MatchPrefix(s).None?
    ensures Head(s).Clause? ==> MatchPrefix(s) == Some(|Source(Head(s))|)
  {
    var p := Head(s);
    if p.Clause? {
      var n := |Source(p)|;
      assert Source(p) == s[..n];
      assert Specifier(Source(p)) == p.spec;
    }
  }

  /** The global scan: at each position the pattern is tried, a match is
      consumed whole, otherwise one character is passed over. */
  function Tokens(s: string): (ps: seq<Piece>)
    ensures Join(ps) == s
    decreases |s|
  {
    if s == [] then []
    else
      var p := Head(s);
      assert s == s[..|Source(p)|] + s[|Source(p)|..];
      [p] + Tokens(s[|Source(p)|..])
  }

  /** One step of the scan. */
  lemma TokensStep(s: string)
    requires s != []
    ensures Tokens(s) == [Head(s)] + Tokens(s[|Source(Head(s))|..])
  {
  }

  /** The replacement callback applied to one piece. */
  function Replace(p: Piece): string {
    match p
    case Plain(c) => [c]
    case Clause(_, spec, _) =>
      if Redirected(spec) then From + "'" + ModulesPrefix + spec + "'" else Source(p)
  }

  function Emit(ps: seq<Piece>): string {
    if ps == [] then [] else Replace(ps[0]) + Emit(ps[1..])
  }

  /** `rewriteImport(content)`. */
  function Rewrite(s: string): string {
    Emit(Tokens(s))
  }

  /** The number of clauses the callback redirects. */
  function Redirections(ps: seq<Piece>): nat {
    if ps == [] then 0
    else (if ps[0].Clause? && Redirected(ps[0].spec) then 1 else 0) + Redirections(ps[1..])
  }

  lemma {:induction false} JoinConcat(a: seq<Piece>, b: seq<Piece>)
    ensures Join(a + b) == Join(a) + Join(b)
  {
    if a == [] {
      assert a + b == b;
    } else {
      assert (a + b)[0] == a[0] && (a + b)[1..] == a[1..] + b;
      JoinConcat(a[1..], b);
    }
  }

  lemma {:induction false} EmitConcat(a: seq<Piece>, b: seq<Piece>)
    ensures Emit(a + b) == Emit(a) + Emit(b)
  {
    if a == [] {
      assert a + b == b;
    } else {
      assert (a + b)[0] == a[0] && (a + b)[1..] == a[1..] + b;
      EmitConcat(a[1..], b);
    }
  }

  /** Each piece of the scan is what one attempt of the pattern yields at the
      position where the piece starts: with the contract of `MatchPrefix`,
      plain characters are emitted only where no clause starts, and a clause
      is the longest one starting there. */
  lemma {:induction false} TokensFollowMatches(s: string, k: nat)
    requires k < |Tokens(s)|
    ensures |Join(Tokens(s)[..k])| < |s|
    ensures Tokens(s)[k].Plain? ==> MatchPrefix(s[|Join(Tokens(s)[..k])|..]) == None
    ensures Tokens(s)[k].Clause? ==>
      MatchPrefix(s[|Join(Tokens(s)[..k])|..]) == Some(|Source(Tokens(s)[k])|)
    decreases |s|
  {
    var ps := Tokens(s);
    if k == 0 {
      assert ps[..0] == [];
      assert s[0..] == s;
    } else {
      var m := |Source(ps[0])|;
      var rest := s[m..];
      TokensShift(s, k);
      TokensFollowMatches(rest, k - 1);
      var at := |Join(Tokens(rest)[..k - 1])|;
      SuffixOfSuffix(s, m, at);
      var x := |Join(ps[..k])|;
      assert x == m + at;
      assert s[x..] == rest[at..];
      assert ps[k] == Tokens(rest)[k - 1];
      if ps[k].Plain? {
        assert MatchPrefix(rest[at..]) == None;
      } else {
        assert MatchPrefix(rest[at..]) == Some(|Source(ps[k])|);
      }
    }
  }

  lemma SuffixOfSuffix(s: string, m: nat, at: nat)
    requires m <= |s| && at <= |s| - m
    ensures s[m + at..] == s[m..][at..]
  {
  }

  /** Past the first piece, the scan of `s` is the scan of what follows it. */
  lemma TokensShift(s: string, k: nat)
    requires 0 < k < |Tokens(s)|
    ensures |Source(Tokens(s)[0])| <= |s|
    ensures k - 1 < |Tokens(s[|Source(Tokens(s)[0])|..])|
    ensures Tokens(s)[k] == Tokens(s[|Source(Tokens(s)[0])|..])[k - 1]
    ensures |Join(Tokens(s)[..k])| ==
      |Source(Tokens(s)[0])| + |Join(Tokens(s[|Source(Tokens(s)[0])|..])[..k - 1])|
  {
    var ps := Tokens(s);
    var rest := s[|Source(ps[0])|..];
    assert ps == [ps[0]] + Tokens(rest);
    assert ps[..k] == [ps[0]] + Tokens(rest)[..k - 1];
    JoinConcat([ps[0]], Tokens(rest)[..k - 1]);
    JoinSingle(ps[0]);
  }

  lemma JoinAround(a: seq<Piece>, p: Piece, c: seq<Piece>)
    ensures Join(a + [p] + c) == Join(a) + Source(p) + Join(c)
  {
    JoinConcat(a + [p], c);
    JoinConcat(a, [p]);
    JoinSingle(p);
  }

  lemma JoinSingle(p: Piece)
    ensures Join([p]) == Source(p)
  {
    assert [p][1..] == [];
  }

  lemma EmitAround(a: seq<Piece>, p: Piece, c: seq<Piece>)
    ensures Emit(a + [p] + c) == Emit(a) + Replace(p) + Emit(c)
  {
    EmitConcat(a + [p], c);
    EmitConcat(a, [p]);
    EmitSingle(p);
  }

  lemma EmitSingle(p: Piece)
    ensures Emit([p]) == Replace(p)
  {
    assert [p][1..] == [];
  }

  lemma PieceInPlace(ps: seq<Piece>, k: nat)
    requires k < |ps|
    ensures Join(ps) == Join(ps[..k]) + Source(ps[k]) + Join(ps[k + 1..])
    ensures Emit(ps) == Emit(ps[..k]) + Replace(ps[k]) + Emit(ps[k + 1..])
  {
    SplitAt(ps, k);
    JoinAround(ps[..k], ps[k], ps[k + 1..]);
    EmitAround(ps[..k], ps[k], ps[k + 1..]);
  }

  /** Every piece of the scan sits in place: the input is the text before
      it, its source text and the text after it; the output is the rewritten
      text before it, its replacement and the rewritten text after it. Text
      outside the clauses is copied, a clause the callback keeps is copied
      byte for byte, and every other clause becomes ` from '/@modules/<spec>'`
      with single quotes, whatever delimiters it was written with. */
  lemma RewriteInPlace(s: string, k: nat)
    requires k < |Tokens(s)|
    ensures s == Join(Tokens(s)[..k]) + Source(Tokens(s)[k]) + Join(Tokens(s)[k + 1..])
    ensures Tokens(s)[k].Plain? ==>
      Rewrite(s) == Emit(Tokens(s)[..k]) + [Tokens(s)[k].c] + Emit(Tokens(s)[k + 1..])
    ensures Tokens(s)[k].Clause? && !Redirected(Tokens(s)[k].spec) ==>
      Rewrite(s) == Emit(Tokens(s)[..k]) + Source(Tokens(s)[k]) + Emit(Tokens(s)[k + 1..])
    ensures Tokens(s)[k].Clause? && Redirected(Tokens(s)[k].spec) ==>
      Rewrite(s) == Emit(Tokens(s)[..k]) + (" from '/@modules/" + Tokens(s)[k].spec + "'")
        + Emit(Tokens(s)[k + 1..])
  {
    PieceInPlace(Tokens(s), k);
    if Tokens(s)[k].Clause? {
      RedirectedText(Tokens(s)[k].spec);
    }
  }

  lemma RedirectedText(spec: string)
    ensures From + "'" + ModulesPrefix + spec + "'" == " from '/@modules/" + spec + "'"
  {
  }

  /** Each redirected clause lengthens the text by exactly `/@modules/`;
      nothing else changes length. */
  lemma {:induction false} EmitGrowth(ps: seq<Piece>)
    ensures |Emit(ps)| == |Join(ps)| + 10 * Redirections(ps)
  {
    if ps != [] {
      EmitGrowth(ps[1..]);
    }
  }

  lemma {:induction false} EmitKeeps(ps: seq<Piece>)
    requires Redirections(ps) == 0
    ensures Emit(ps) == Join(ps)
  {
    if ps != [] {
      EmitKeeps(ps[1..]);
    }
  }

  lemma {:induction false} NoRedirections(ps: seq<Piece>)
    ensures Redirections(ps) == 0 <==>
      forall k :: 0 <= k < |ps| && ps[k].Clause? ==> !Redirected(ps[k].spec)
  {
    if ps != [] {
      NoRedirections(ps[1..]);
      assert forall k :: 1 <= k < |ps| ==> ps[k] == ps[1..][k - 1];
    }
  }

  /** The output is the input exactly when the callback keeps every clause
      the scan finds. */
  lemma RewriteIdentityIff(s: string)
    ensures Rewrite(s) == s <==>
      forall k :: 0 <= k < |Tokens(s)| && Tokens(s)[k].Clause? ==> !Redirected(Tokens(s)[k].spec)
  {
    var ps := Tokens(s);
    assert Rewrite(s) == Emit(ps) && Join(ps) == s;
    NoRedirections(ps);
    EmitGrowth(ps);
    if Redirections(ps) == 0 {
      EmitKeeps(ps);
    } else {
      assert |Rewrite(s)| != |s|;
    }
  }

  lemma ClauseAtOffset(s: string, at: nat, n: nat)
    requires at <= |s| && n <= |s| - at && IsClause(s[at..][..n])
    ensures IsClause(s[at..at + n])
  {
    assert s[at..][..n] == s[at..at + n];
  }

  /** Input in which no substring matches the pattern is returned unchanged. */
  lemma IdentityWithoutClauses(s: string)
    requires forall i, n :: 0 <= i <= n <= |s| ==> !IsClause(s[i..n])
    ensures Rewrite(s) == s
  {
    var ps := Tokens(s);
    forall k | 0 <= k < |ps| ensures ps[k].Plain? {
      TokensFollowMatches(s, k);
      if ps[k].Clause? {
        ClauseAtOffset(s, |Join(ps[..k])|, |Source(ps[k])|);
      }
    }
    NoRedirections(ps);
    RewriteIdentityIff(s);
  }

  /** A text that is one clause scans as that one clause. */
  lemma SingleClause(t: string)
    requires IsClause(t)
    ensures Tokens(t) == [Clause(t[6], Specifier(t), t[|t| - 1])]
  {
    assert t[..|t|] == t;
    assert t[|t|..] == [];
  }

  /** One clause alone, with any delimiters: kept byte for byte when the
      specifier starts with `.` or has `/` second, and otherwise replaced by
      ` from '/@modules/<spec>'`. */
  lemma LoneClause(open: char, spec: string, close: char)
    requires IsDelimiter(open) && IsDelimiter(close) && |spec| >= 1
    requires forall k :: 0 <= k < |spec| ==> !IsQuote(spec[k])
    ensures Rewrite(From + [open] + spec + [close]) ==
      if Redirected(spec) then " from '/@modules/" + spec + "'" else From + [open] + spec + [close]
  {
    var t := From + [open] + spec + [close];
    assert t[..6] == From;
    forall k | 7 <= k < |t| - 1 ensures !IsQuote(t[k]) {
      assert t[k] == spec[k - 7];
    }
    assert Specifier(t) == spec && t[6] == open && t[|t| - 1] == close;
    SingleClause(t);
    var ps := [Clause(open, spec, close)];
    assert Tokens(t) == ps;
    assert ps[1..] == [];
    assert Emit(ps) == Replace(ps[0]) + Emit(ps[1..]);
    RedirectedText(spec);
  }

  /** A redirected clause, rewritten again, is redirected again: the prefix
      doubles, so the rewrite is not idempotent. */
  lemma RedirectTwice(spec: string)
    requires |spec| >= 1 && Redirected(spec)
    requires forall k :: 0 <= k < |spec| ==> !IsQuote(spec[k])
    ensures Rewrite(" from '" + spec + "'") == " from '/@modules/" + spec + "'"
    ensures Rewrite(Rewrite(" from '" + spec + "'")) == " from '/@modules//@modules/" + spec + "'"
  {
    QuotedTexts(spec);
    LoneClause('\'', spec, '\'');
    LoneClause('\'', ModulesPrefix + spec, '\'');
  }

  lemma QuotedTexts(spec: string)
    requires forall k :: 0 <= k < |spec| ==> !IsQuote(spec[k])
    ensures " from '" + spec + "'" == From + ['\''] + spec + ['\'']
    ensures " from '/@modules/" + spec + "'" == From + ['\''] + (ModulesPrefix + spec) + ['\'']
    ensures " from '/@modules/" + (ModulesPrefix + spec) + "'" == " from '/@modules//@modules/" + spec + "'"
    ensures |ModulesPrefix + spec| >= 1 && Redirected(ModulesPrefix + spec)
    ensures forall k :: 0 <= k < |ModulesPrefix + spec| ==> !IsQuote((ModulesPrefix + spec)[k])
  {
    var again := ModulesPrefix + spec;
    forall k | 0 <= k < |again| ensures !IsQuote(again[k]) {
      if k >= 10 {
        assert again[k] == spec[k - 10];
      }
    }
  }

  /** The concrete instance: ` from 'vue'` gains a second prefix on a
      second pass. */
  lemma NotIdempotent()
    ensures Rewrite(From + "'vue'") == From + "'/@modules/vue'"
    ensures Rewrite(From + "'/@modules/vue'") == From + "'/@modules//@modules/vue'"
    ensures Rewrite(Rewrite(From + "'vue'")) != Rewrite(From + "'vue'")
  {
    VueTexts();
    RedirectTwice("vue");
  }

  lemma VueTexts()
    ensures " from '" + "vue" + "'" == From + "'vue'"
    ensures " from '/@modules/" + "vue" + "'" == From + "'/@modules/vue'"
    ensures " from '/@modules//@modules/" + "vue" + "'" == From + "'/@modules//@modules/vue'"
    ensures From + "'/@modules/vue'" != From + "'/@modules//@modules/vue'"
  {
    assert (From + "'/@modules/vue'")[17] != (From + "'/@modules//@modules/vue'")[17];
  }

  /** An absolute specifier is redirected (its first character is `/`,
      not `.`), unless its second character is also `/`. */
  lemma AbsolutePathRedirected(rest: string)
    requires |rest| >= 1 && rest[0] != '/'
    requires forall k :: 0 <= k < |rest| ==> !IsQuote(rest[k])
    ensures Rewrite(From + "'/" + rest + "'") == From + "'/@modules//" + rest + "'"
  {
    AbsoluteTexts(rest);
    LoneClause('\'', "/" + rest, '\'');
  }

  lemma AbsoluteTexts(rest: string)
    requires |rest| >= 1 && rest[0] != '/'
    requires forall k :: 0 <= k < |rest| ==> !IsQuote(rest[k])
    ensures forall k :: 0 <= k < |"/" + rest| ==> !IsQuote(("/" + rest)[k])
    ensures |"/" + rest| >= 1 && Redirected("/" + rest)
    ensures From + ['\''] + ("/" + rest) + ['\''] == From + "'/" + rest + "'"
    ensures " from '/@modules/" + ("/" + rest) + "'" == From + "'/@modules//" + rest + "'"
  {
    var spec := "/" + rest;
    forall k | 0 <= k < |spec| ensures !IsQuote(spec[k]) {
      if k > 0 {
        assert spec[k] == rest[k - 1];
      }
    }
    assert spec[1] == rest[0];
  }

  /** A specifier whose second character is `/` is kept byte for byte, whatever
      its first character and whether or not it is a bare package path. */
  lemma SlashSecondKept(open: char, first: char, rest: string, close: char)
    requires IsDelimiter(open) && IsDelimiter(close) && !IsQuote(first)
    requires forall k :: 0 <= k < |rest| ==> !IsQuote(rest[k])
    ensures Rewrite(From + [open, first, '/'] + rest + [close]) == From + [open, first, '/'] + rest + [close]
  {
    PrefixedTexts(open, [first, '/'], rest, close);
    DisplayTexts(open, [first, '/'], [open, first, '/'], rest, close);
    LoneClause(open, [first, '/'] + rest, close);
  }

  lemma PrefixedTexts(open: char, head: string, rest: string, close: char)
    requires forall k :: 0 <= k < |head| ==> !IsQuote(head[k])
    requires forall k :: 0 <= k < |rest| ==> !IsQuote(rest[k])
    ensures forall k :: 0 <= k < |head + rest| ==> !IsQuote((head + rest)[k])
    ensures From + [open] + (head + rest) + [close] == From + ([open] + head) + rest + [close]
  {
    var spec := head + rest;
    forall k | 0 <= k < |spec| ensures !IsQuote(spec[k]) {
      if k >= |head| {
        assert spec[k] == rest[k - |head|];
      }
    }
  }

  lemma DisplayTexts(open: char, head: string, lead: string, rest: string, close: char)
    requires lead == [open] + head
    ensures From + [open] + (head + rest) + [close] == From + lead + rest + [close]
  {
  }

  /** A specifier that starts with `.` is kept byte for byte. */
  lemma DotFirstKept(open: char, rest: string, close: char)
    requires IsDelimiter(open) && IsDelimiter(close)
    requires forall k :: 0 <= k < |rest| ==> !IsQuote(rest[k])
    ensures Rewrite(From + [open, '.'] + rest + [close]) == From + [open, '.'] + rest + [close]
  {
    PrefixedTexts(open, ['.'], rest, close);
    DisplayTexts(open, ['.'], [open, '.'], rest, close);
    LoneClause(open, ['.'] + rest, close);
  }

  /** A one-character specifier has no second character (`s1[1]` is
      `undefined`), so it is redirected unless it is `.`. */
  lemma OneCharacterRedirected(open: char, c: char, close: char)
    requires IsDelimiter(open) && IsDelimiter(close) && !IsQuote(c) && c != '.'
    ensures Rewrite(From + [open, c, close]) == From + "'/@modules/" + [c] + "'"
  {
    OneCharacterTexts(open, c, close);
    LoneClause(open, [c], close);
  }

  lemma OneCharacterTexts(open: char, c: char, close: char)
    ensures From + [open] + [c] + [close] == From + [open, c, close]
    ensures " from '/@modules/" + [c] + "'" == From + "'/@modules/" + [c] + "'"
  {
  }

  /** Without a closing quote the engine backtracks to the last `|`, which
      then serves as the closing delimiter. */
  lemma BacktrackToBar()
    ensures Rewrite(From + "'a|b") == From + "'/@modules/a'b"
  {
    var s := From + "'a|b";
    assert IsClause(s[..9]);
    assert !IsClause(s[..10]);
    assert Head(s) == Clause('\'', "a", '|');
    TokensStep(s);
    assert s[9..] == "b";
    TokensStep("b");
    var ps := [Clause('\'', "a", '|'), Plain('b')];
    assert Tokens(s) == ps;
    BacktrackTexts();
    assert ps[1..] == [Plain('b')] && ps[1..][1..] == [];
  }

  lemma BacktrackTexts()
    ensures From + "'" + ModulesPrefix + "a" + "'" + ['b'] == From + "'/@modules/a'b"
  {
  }
}
