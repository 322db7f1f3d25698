/** Failure codes as the services store them, and the prefix that marks a failure before mutation. */
module FailureCodes {
  const PRE_MUTATION := "pre_mutation_"
  const CODE_LIMIT := 80
  const RETRY_EXHAUSTED := "pre_mutation_task_retry_exhausted"
  const RECOVERY_REQUIRED := "restore_recovery_required"

  predicate IsSpace(c: char) {
    var n := c as int;
    || 9 <= n <= 13 || 28 <= n <= 32 || n == 133 || n == 160 || n == 0x1680
    || 0x2000 <= n <= 0x200A || n == 0x2028 || n == 0x2029 || n == 0x202F || n == 0x205F || n == 0x3000
  }

  function WordLength(s: string): (n: nat)
    ensures n <= |s|
    ensures forall i :: 0 <= i < n ==> !IsSpace(s[i])
    ensures n < |s| ==> IsSpace(s[n])
  {
    if s == "" || IsSpace(s[0]) then 0 else 1 + WordLength(s[1..])
  }

  function Words(s: string): seq<string>
    decreases |s|
  {
    if s == "" then []
    else if IsSpace(s[0]) then Words(s[1..])
    else [s[..WordLength(s)]] + Words(s[WordLength(s)..])
  }

  function JoinWords(words: seq<string>): string {
    if |words| == 0 then ""
    else if |words| == 1 then words[0]
    else words[0] + " " + JoinWords(words[1..])
  }

  function Truncate(s: string, limit: nat): string {
    if |s| <= limit then s else s[..limit]
  }

  /** Collapse white space to single blanks, then cut. */
  function SanitizeText(s: string, limit: nat): string {
    Truncate(JoinWords(Words(s)), limit)
  }

  predicate StartsWith(s: string, prefix: string) {
    prefix <= s
  }

  predicate IsPreMutation(code: string) {
    StartsWith(code, PRE_MUTATION)
  }

  /** The code stored for a failure `code` before mutation. */
  function PreMutationCode(code: string): string {
    SanitizeText(Truncate(PRE_MUTATION + code, CODE_LIMIT), CODE_LIMIT)
  }

  lemma FirstWordKeepsPrefix(s: string, prefix: string)
    requires prefix <= s && |prefix| > 0 && forall i :: 0 <= i < |prefix| ==> !IsSpace(prefix[i])
    ensures |Words(s)| > 0 && prefix <= Words(s)[0]
  {
    assert !IsSpace(s[0]);
    assert WordLength(s) >= |prefix|;
  }

  lemma JoinKeepsFirstWord(words: seq<string>)
    requires |words| > 0
    ensures words[0] <= JoinWords(words)
  {
  }

  /** A prefix without blanks survives sanitizing whenever the limit leaves room for it. */
  lemma SanitizeKeepsPrefix(s: string, prefix: string, limit: nat)
    requires prefix <= s && 0 < |prefix| <= limit && forall i :: 0 <= i < |prefix| ==> !IsSpace(prefix[i])
    ensures StartsWith(SanitizeText(s, limit), prefix)
  {
    FirstWordKeepsPrefix(s, prefix);
    JoinKeepsFirstWord(Words(s));
    var joined := JoinWords(Words(s));
    assert prefix <= Words(s)[0] <= joined;
    assert Truncate(joined, limit)[..|prefix|] == joined[..|prefix|];
  }

  /** Whatever the code, the stored code of a failure before mutation carries the prefix. */
  lemma PreMutationCodeIsMarked(code: string)
    ensures IsPreMutation(PreMutationCode(code))
  {
    var marked := Truncate(PRE_MUTATION + code, CODE_LIMIT);
    assert marked[..|PRE_MUTATION|] == PRE_MUTATION;
    SanitizeKeepsPrefix(marked, PRE_MUTATION, CODE_LIMIT);
  }

  lemma SanitizeFitsColumn(s: string, limit: nat)
    ensures |SanitizeText(s, limit)| <= limit
  {
  }

  // ---- What collapsing white space means, in one pass ----

  /** One blank for each run of white space between words, none at the ends; `gap` says that white space is pending. */
  function Collapse(s: string, started: bool, gap: bool): string {
    if s == "" then ""
    else if IsSpace(s[0]) then Collapse(s[1..], started, started)
    else (if gap then " " else "") + [s[0]] + Collapse(s[1..], true, false)
  }

  function After(words: seq<string>): string {
    if words == [] then "" else " " + JoinWords(words)
  }

  lemma JoinsFirst(word: string, words: seq<string>)
    ensures JoinWords([word] + words) == word + After(words)
  {
    assert ([word] + words)[1..] == words;
  }

  lemma FirstWord(s: string)
    requires s != "" && !IsSpace(s[0])
    ensures JoinWords(Words(s)) == s[..WordLength(s)] + After(Words(s[WordLength(s)..]))
    ensures Words(s) != []
  {
    JoinsFirst(s[..WordLength(s)], Words(s[WordLength(s)..]));
  }

  lemma LongerWord(s: string)
    requires s != "" && !IsSpace(s[0])
    ensures WordLength(s) == WordLength(s[1..]) + 1
    ensures s[..WordLength(s)] == [s[0]] + s[1..][..WordLength(s[1..])]
    ensures s[WordLength(s)..] == s[1..][WordLength(s[1..])..]
  {
    hide IsSpace;
  }

  lemma CollapsesBlank(s: string)
    requires s != "" && IsSpace(s[0])
    ensures Collapse(s, false, false) == Collapse(s[1..], false, false)
    ensures forall gap :: Collapse(s, true, gap) == Collapse(s[1..], true, true)
    ensures Words(s) == Words(s[1..]) && s[..WordLength(s)] == "" && s[WordLength(s)..] == s
  {
    hide IsSpace;
  }

  lemma CollapsesLetter(s: string)
    requires s != "" && !IsSpace(s[0])
    ensures forall started, gap :: Collapse(s, started, gap) == (if gap then " " else "") + [s[0]] + Collapse(s[1..], true, false)
  {
    hide IsSpace;
  }

  lemma Regroup(a: string, b: string, c: string)
    ensures a + b + c == a + (b + c)
  {
  }

  ghost predicate CollapsesWell(s: string) {
    && Collapse(s, false, false) == JoinWords(Words(s))
    && Collapse(s, true, true) == After(Words(s))
    && Collapse(s, true, false) == s[..WordLength(s)] + After(Words(s[WordLength(s)..]))
  }

  lemma CollapsesWordWell(s: string)
    requires s != "" && !IsSpace(s[0]) && CollapsesWell(s[1..])
    ensures CollapsesWell(s)
  {
    hide Collapse, Words, JoinWords, WordLength, IsSpace;
    CollapsesLetter(s);
    FirstWord(s);
    LongerWord(s);
    var first, rest := s[1..][..WordLength(s[1..])], After(Words(s[WordLength(s)..]));
    hide *;
    Regroup([s[0]], first, rest);
    Regroup(" ", [s[0]], first + rest);
    assert "" + [s[0]] == [s[0]];
  }

  lemma {:induction false} CollapsesFrom(s: string)
    ensures CollapsesWell(s)
  {
    if s != "" {
      CollapsesFrom(s[1..]);
      if IsSpace(s[0]) {
        CollapsesBlank(s);
        hide Collapse, Words, JoinWords, WordLength, IsSpace;
      } else {
        CollapsesWordWell(s);
        hide *;
      }
    }
  }

  /** What is stored is the text with its white space collapsed, whole if it fits and cut to the limit if not. */
  lemma SanitizesExactly(s: string, limit: nat)
    ensures var collapsed := Collapse(s, false, false);
            && SanitizeText(s, limit) <= collapsed
            && |SanitizeText(s, limit)| == if |collapsed| <= limit then |collapsed| else limit
  {
    CollapsesFrom(s);
  }
}
