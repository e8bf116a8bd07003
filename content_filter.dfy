/** The sensitive-content policy (`ContentFilter` in slack-knowledge-assistant.py). */
module ContentFilter {
  import opened Text

  /** One blocked pattern, written over lowercase text: the literal `head`,
      then the literal `tail`, with (when `gap` holds) one optional character
      between them that is not a newline, as `.?` matches. */
  datatype Pattern = Pattern(head: string, gap: bool, tail: string)

  /** The four patterns, in list order: `password[s]?` (the optional `s` never
      changes whether a search succeeds), `credit.?card`, `ssn`, `social.?security`;
      all are compiled case-insensitively. */
  const BlockedPatterns: seq<Pattern> := [
    Pattern("password", false, ""),
    Pattern("credit", true, "card"),
    Pattern("ssn", false, ""),
    Pattern("social", true, "security")
  ]

  /** The literal `lit` occurs in `s` starting at position `i`. */
  predicate LiteralAt(lit: string, s: string, i: nat) {
    i + |lit| <= |s| && s[i..i + |lit|] == lit
  }

  /** Pattern `p` matches lowercase text `s` at position `i`. */
  predicate MatchesAt(p: Pattern, s: string, i: nat) {
    var j := i + |p.head|;
    && LiteralAt(p.head, s, i)
    && (|| LiteralAt(p.tail, s, j)
        || (p.gap && j < |s| && s[j] != '\n' && LiteralAt(p.tail, s, j + 1)))
  }

  /** Pattern `p` matches lowercase text `s` at some position. */
  ghost predicate OccursIn(p: Pattern, s: string) {
    exists i: nat :: i <= |s| && MatchesAt(p, s, i)
  }

  /** `re.search(p, t)` succeeds: the pattern matches the lowercased text somewhere. */
  ghost predicate Occurs(p: Pattern, t: string) {
    OccursIn(p, Lower(t))
  }

  /** The policy's verdict: no blocked pattern occurs anywhere in `t`. */
  ghost predicate Safe(t: string) {
    forall k :: 0 <= k < |BlockedPatterns| ==> !Occurs(BlockedPatterns[k], t)
  }

  /** The search itself: is there a match at some position from `from` on? */
  function Search(p: Pattern, s: string, from: nat): (found: bool)
    requires from <= |s|
    ensures found <==> exists i: nat :: from <= i <= |s| && MatchesAt(p, s, i)
    decreases |s| - from
  {
    if MatchesAt(p, s, from) then true
    else if from == |s| then false
    else
      Search(p, s, from + 1)
  }

  /** `is_safe_content`: tries the patterns in list order and returns False on
      the first one that is found. */
  method IsSafeContent(text: string) returns (safe: bool)
    ensures safe <==> Safe(text)
    ensures !safe <==> exists k :: 0 <= k < |BlockedPatterns| && Occurs(BlockedPatterns[k], text)
  {
    var lowered := Lower(text);
    for k := 0 to |BlockedPatterns|
      invariant forall j :: 0 <= j < k ==> !Occurs(BlockedPatterns[j], text)
    {
      if Search(BlockedPatterns[k], lowered, 0) {
        return false;
      }
    }
    return true;
  }

  /** A literal inside `s` is still there inside any text around it. */
  lemma LiteralInContext(lit: string, pre: string, s: string, post: string, i: nat)
    requires LiteralAt(lit, s, i)
    ensures LiteralAt(lit, pre + s + post, |pre| + i)
  {
    var u := pre + s + post;
    forall k | 0 <= k < |lit| ensures u[|pre| + i + k] == lit[k] {
      assert s[i..i + |lit|][k] == s[i + k];
    }
    assert u[|pre| + i..|pre| + i + |lit|] == lit;
  }

  /** A match inside `s` is still a match inside any text around it. */
  lemma MatchInContext(p: Pattern, pre: string, s: string, post: string, i: nat)
    requires MatchesAt(p, s, i)
    ensures MatchesAt(p, pre + s + post, |pre| + i)
  {
    var j := i + |p.head|;
    LiteralInContext(p.head, pre, s, post, i);
    if LiteralAt(p.tail, s, j) {
      LiteralInContext(p.tail, pre, s, post, j);
    } else {
      assert (pre + s + post)[|pre| + j] == s[j];
      LiteralInContext(p.tail, pre, s, post, j + 1);
    }
  }

  /** A match found in lowercase text `s` is still found in any text around it. */
  lemma OccursInLoweredContext(p: Pattern, pre: string, s: string, post: string)
    requires OccursIn(p, s)
    ensures OccursIn(p, pre + s + post)
  {
    var i: nat :| i <= |s| && MatchesAt(p, s, i);
    MatchInContext(p, pre, s, post, i);
  }

  /** Any pattern found in `t` is still found in any text around it. */
  lemma OccursInContext(p: Pattern, pre: string, t: string, post: string)
    requires Occurs(p, t)
    ensures Occurs(p, pre + t + post)
  {
    LowerConcat3(pre, t, post);
    OccursInLoweredContext(p, Lower(pre), Lower(t), Lower(post));
  }

  /** The search is not anchored: text that is unsafe stays unsafe however much
      text surrounds it. */
  lemma UnsafeInContext(pre: string, t: string, post: string)
    requires !Safe(t)
    ensures !Safe(pre + t + post)
  {
    var k :| 0 <= k < |BlockedPatterns| && Occurs(BlockedPatterns[k], t);
    OccursInContext(BlockedPatterns[k], pre, t, post);
  }

  /** An unsafe text stays unsafe when anything is appended to it. */
  lemma UnsafeBeforeSuffix(t: string, post: string)
    requires !Safe(t)
    ensures !Safe(t + post)
  {
    UnsafeInContext([], t, post);
    assert [] + t + post == t + post;
  }

  /** The patterns are case-insensitive: texts that differ only in the case of
      ASCII letters get the same verdict. */
  lemma CaseInsensitive(t: string, u: string)
    requires |t| == |u|
    requires forall i :: 0 <= i < |t| ==> LowerChar(t[i]) == LowerChar(u[i])
    ensures Safe(t) <==> Safe(u)
  {
    assert Lower(t) == Lower(u);
  }

  /** A pattern cannot occur in a text that lacks its first character. */
  lemma NoMatchWithoutFirstChar(p: Pattern, t: string)
    requires |p.head| > 0 && p.head[0] !in Lower(t)
    ensures !Occurs(p, t)
  {
    forall i: nat | i <= |t| ensures !MatchesAt(p, Lower(t), i) {
      if i + |p.head| <= |t| { assert Lower(t)[i..i + |p.head|][0] == Lower(t)[i]; }
    }
  }

  /** Every blocked pattern starts with `p`, `c` or `s`: text without these
      letters, in either case, is safe. */
  lemma SafeWithoutInitials(t: string)
    requires 'p' !in Lower(t) && 'c' !in Lower(t) && 's' !in Lower(t)
    ensures Safe(t)
  {
    forall k | 0 <= k < |BlockedPatterns| ensures !Occurs(BlockedPatterns[k], t) {
      NoMatchWithoutFirstChar(BlockedPatterns[k], t);
    }
  }

  /** Text made of digits and dashes holds no blocked word. */
  lemma SafeDigitsAndDashes(t: string)
    requires forall i :: 0 <= i < |t| ==> t[i] == '-' || '0' <= t[i] <= '9'
    ensures Safe(t)
  {
    assert forall i :: 0 <= i < |t| ==> Lower(t)[i] == t[i];
    SafeWithoutInitials(t);
  }

  /** A national-ID number holds no blocked word, so the policy lets it through. */
  // The literal arrives through a parameter fixed by `requires`, which keeps Dafny from evaluating functions of it eagerly.
  lemma SafeIdNumber(t: string)
    requires t == "123-45-6789"
    ensures Safe(t)
  {
    SafeDigitsAndDashes(t);
  }

  // The literal arrives through a parameter fixed by `requires`, which keeps Dafny from evaluating functions of it eagerly.
  lemma CreditNewlineCard(l: string)
    requires l == "credit\ncard"
    ensures forall i: nat :: i <= |l| ==> !MatchesAt(BlockedPatterns[1], l, i)
  {
    forall i: nat | i <= |l| ensures !MatchesAt(BlockedPatterns[1], l, i) {
      if i == 0 {
        assert l[6] == '\n';
        assert l[6..10] != "card";
      } else if i <= 5 {
        assert l[i..i + 6][0] == l[i] != 'c';
      }
    }
  }

  /** A match anywhere makes the text unsafe. */
  lemma UnsafeAt(t: string, k: nat, i: nat)
    requires k < |BlockedPatterns| && i <= |t| && MatchesAt(BlockedPatterns[k], Lower(t), i)
    ensures !Safe(t)
  {
  }

  // The literal arrives through a parameter fixed by `requires`, which keeps Dafny from evaluating functions of it eagerly.
  lemma LowerOfNewlineGap(t: string)
    requires t == "credit\ncard"
    ensures Lower(t) == "credit\ncard"
    ensures 'p' !in Lower(t) && 's' !in Lower(t)
  {
  }

  lemma NoCreditCardIn(t: string)
    requires forall i: nat :: i <= |t| ==> !MatchesAt(BlockedPatterns[1], Lower(t), i)
    ensures !Occurs(BlockedPatterns[1], t)
  {
  }

  lemma SafeUnlessCreditCard(t: string)
    requires 'p' !in Lower(t) && 's' !in Lower(t) && !Occurs(BlockedPatterns[1], t)
    ensures Safe(t)
  {
    NoMatchWithoutFirstChar(BlockedPatterns[0], t);
    NoMatchWithoutFirstChar(BlockedPatterns[2], t);
    NoMatchWithoutFirstChar(BlockedPatterns[3], t);
  }

  /** The gap `.?` never matches a newline, so `credit` and `card` on two lines are safe. */
  lemma SafeNewlineGap()
    ensures Safe("credit\ncard")
  {
    LowerOfNewlineGap("credit\ncard");
    CreditNewlineCard("credit\ncard");
    NoCreditCardIn("credit\ncard");
    SafeUnlessCreditCard("credit\ncard");
  }

  // The literal arrives through a parameter fixed by `requires`, which keeps Dafny from evaluating functions of it eagerly.
  lemma LowerOfCreditCard(t: string)
    requires t == "Credit-Card"
    ensures Lower(t) == "credit-card"
  {
  }

  // The literal arrives through a parameter fixed by `requires`, which keeps Dafny from evaluating functions of it eagerly.
  lemma CreditDashCard(l: string)
    requires l == "credit-card"
    ensures MatchesAt(BlockedPatterns[1], l, 0)
  {
  }

  /** Any single character other than a newline may stand between `credit` and `card`,
      and the case of the letters does not matter. */
  lemma UnsafeCreditCard()
    ensures !Safe("Credit-Card")
  {
    LowerOfCreditCard("Credit-Card");
    CreditDashCard("credit-card");
    UnsafeAt("Credit-Card", 1, 0);
  }

  /** A pattern cannot occur in a text shorter than its first literal. */
  lemma NoMatchInShortText(p: Pattern, t: string)
    requires |t| < |p.head|
    ensures !Occurs(p, t)
  {
  }

  /** Every blocked pattern needs at least three characters, so shorter text is safe. */
  lemma SafeShortText(t: string)
    requires |t| < 3
    ensures Safe(t)
  {
    forall k | 0 <= k < |BlockedPatterns| ensures !Occurs(BlockedPatterns[k], t) {
      NoMatchInShortText(BlockedPatterns[k], t);
    }
  }

  // The literal arrives through a parameter fixed by `requires`, which keeps Dafny from evaluating functions of it eagerly.
  lemma LowerOfName(t: string)
    requires t == "Alice"
    ensures Lower(t) == "alice"
    ensures 'p' !in Lower(t) && 's' !in Lower(t)
  {
  }

  /** A first name with no blocked word is safe. */
  lemma SafeName()
    ensures Safe("Alice")
  {
    LowerOfName("Alice");
    NoMatchInShortText(BlockedPatterns[1], "Alice");
    SafeUnlessCreditCard("Alice");
  }
}
