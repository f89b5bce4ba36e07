/**
 The commit template: a `|`-separated list of column keys from the user's
 configuration. Unknown tokens are dropped silently; when nothing is left the
 template falls back to short hash then message.
 */
module CommitTemplate {
  import opened Strings

  /** A template key is a string; only three of them are recognised. */
  type CommitTemplateKey = string

  const ShortShaCommitKey: CommitTemplateKey := "short-sha"
  const MessageCommitKey: CommitTemplateKey := "message"
  const AuthorCommitKey: CommitTemplateKey := "author"

  const AllowedCommitTemplateKeys: set<CommitTemplateKey> :=
    {ShortShaCommitKey, MessageCommitKey, AuthorCommitKey}

  const TemplateSeparator: char := '|'

  const DefaultTemplate: seq<CommitTemplateKey> := [ShortShaCommitKey, MessageCommitKey]

  /** A recognised key; recognised keys are non-empty and never hold the separator. */
  predicate IsValid(key: CommitTemplateKey)
    ensures IsValid(key) ==> |key| > 0 && TemplateSeparator !in key
    ensures IsValid(key) <==> key == ShortShaCommitKey || key == MessageCommitKey || key == AuthorCommitKey
  {
    key in AllowedCommitTemplateKeys
  }

  /** The tokens that are recognised keys, in their order, repeats kept. */
  function FilterAllowed(tokens: seq<string>): (keys: seq<CommitTemplateKey>)
    ensures |keys| <= |tokens|
    ensures forall i :: 0 <= i < |keys| ==> IsValid(keys[i])
  {
    if |tokens| == 0 then []
    else (if IsValid(tokens[0]) then [tokens[0]] else []) + FilterAllowed(tokens[1..])
  }

  /** Some token of the template is a recognised key. */
  predicate HasValidToken(template: string)
  {
    exists i :: 0 <= i < |Split(template, TemplateSeparator)| && IsValid(Split(template, TemplateSeparator)[i])
  }

  /** The parsed template: never empty, and only recognised keys. */
  function ListOfAllowedParts(template: string): (keys: seq<CommitTemplateKey>)
    ensures |keys| >= 1
    ensures forall i :: 0 <= i < |keys| ==> IsValid(keys[i])
  {
    var allowedParts := FilterAllowed(Split(template, TemplateSeparator));
    if |allowedParts| == 0 then DefaultTemplate else allowedParts
  }

  /** The parsed template is the filtered tokens when some token is a
      recognised key, and the default exactly when none is. */
  lemma ParseResult(template: string)
    ensures HasValidToken(template) ==> ListOfAllowedParts(template) == FilterAllowed(Split(template, TemplateSeparator))
    ensures !HasValidToken(template) <==>
      (ListOfAllowedParts(template) == DefaultTemplate && FilterAllowed(Split(template, TemplateSeparator)) == [])
  {
    FilterAllowedEmpty(Split(template, TemplateSeparator));
  }

  /** The filter keeps nothing exactly when no token is a recognised key. */
  lemma {:induction false} FilterAllowedEmpty(tokens: seq<string>)
    ensures |FilterAllowed(tokens)| == 0 <==> forall i :: 0 <= i < |tokens| ==> !IsValid(tokens[i])
    decreases |tokens|
  {
    if |tokens| > 0 {
      FilterAllowedEmpty(tokens[1..]);
      assert forall i :: 1 <= i < |tokens| ==> tokens[i] == tokens[1..][i - 1];
    }
  }

  /** Filtering distributes over concatenation: together with its value on a
      single token this fixes the filter completely, i.e. it keeps exactly the
      recognised tokens, in order. */
  lemma {:induction false} FilterAllowedAppend(a: seq<string>, b: seq<string>)
    ensures FilterAllowed(a + b) == FilterAllowed(a) + FilterAllowed(b)
    decreases |a|
  {
    if |a| == 0 {
      assert a + b == b;
    } else {
      var head := if IsValid(a[0]) then [a[0]] else [];
      assert (a + b)[0] == a[0];
      assert (a + b)[1..] == a[1..] + b;
      assert FilterAllowed(a + b) == head + FilterAllowed(a[1..] + b);
      FilterAllowedAppend(a[1..], b);
      assert FilterAllowed(a) == head + FilterAllowed(a[1..]);
      assert head + (FilterAllowed(a[1..]) + FilterAllowed(b)) == (head + FilterAllowed(a[1..])) + FilterAllowed(b);
    }
  }

  /** On one token the filter keeps it exactly when it is a recognised key. */
  lemma FilterAllowedSingle(token: string)
    ensures IsValid(token) ==> FilterAllowed([token]) == [token]
    ensures !IsValid(token) ==> FilterAllowed([token]) == []
  {
    assert [token][1..] == [];
  }

  /** Every recognised key occurs as often in the result as in the input, and
      nothing else occurs: no deduplication and no invention. */
  lemma {:induction false} FilterAllowedCounts(tokens: seq<string>)
    ensures forall x :: multiset(FilterAllowed(tokens))[x] == if IsValid(x) then multiset(tokens)[x] else 0
    decreases |tokens|
  {
    if |tokens| > 0 {
      FilterAllowedCounts(tokens[1..]);
      assert tokens == [tokens[0]] + tokens[1..];
      assert multiset(tokens) == multiset{tokens[0]} + multiset(tokens[1..]);
    }
  }

  /** A list of recognised keys passes the filter unchanged. */
  lemma {:induction false} FilterAllowedKeepsKeys(keys: seq<CommitTemplateKey>)
    requires forall i :: 0 <= i < |keys| ==> IsValid(keys[i])
    ensures FilterAllowed(keys) == keys
    decreases |keys|
  {
    if |keys| > 0 {
      FilterAllowedKeepsKeys(keys[1..]);
      assert [keys[0]] + keys[1..] == keys;
    }
  }

  /** Parsing is idempotent: writing a parsed template back out with `|` and
      parsing it again gives the same keys. */
  lemma ParseIdempotent(template: string)
    ensures ListOfAllowedParts(Join(ListOfAllowedParts(template), [TemplateSeparator]))
         == ListOfAllowedParts(template)
  {
    var keys := ListOfAllowedParts(template);
    SplitJoin(keys, TemplateSeparator);
    FilterAllowedKeepsKeys(keys);
  }

  /** The empty template falls back to the default. */
  lemma ParseEmptyExample()
    ensures ListOfAllowedParts("") == DefaultTemplate
  {
    assert Split("", TemplateSeparator) == [""];
    assert !IsValid("");
    assert FilterAllowed([""]) == [];
  }

  /** Templates of unknown tokens only fall back to the default. */
  lemma ParseBogusExample()
    ensures ListOfAllowedParts("bogus|also-bogus") == DefaultTemplate
  {
    var tokens := ["bogus", "also-bogus"];
    assert !IsValid("bogus") && !IsValid("also-bogus");
    SplitJoin(tokens, TemplateSeparator);
    assert Join(tokens, [TemplateSeparator]) == "bogus|also-bogus";
    FilterAllowedAppend(["bogus"], ["also-bogus"]);
    FilterAllowedSingle("bogus");
    FilterAllowedSingle("also-bogus");
    assert tokens == ["bogus"] + ["also-bogus"];
  }

  /** Order is the template's, not a canonical one. */
  lemma ParseSwapExample(template: string)
    requires template == "author|short-sha"
    ensures ListOfAllowedParts(template) == [AuthorCommitKey, ShortShaCommitKey]
  {
    var tokens := ["author", "short-sha"];
    SplitJoin(tokens, TemplateSeparator);
    assert Join(tokens, [TemplateSeparator]) == template;
    FilterAllowedKeepsKeys(tokens);
    ParseOfTokens(template, tokens, tokens);
  }

  /** The two-key template of the pick scenario. */
  lemma ParseShaMessageExample(template: string)
    requires template == "short-sha|message"
    ensures ListOfAllowedParts(template) == [ShortShaCommitKey, MessageCommitKey]
  {
    var tokens := ["short-sha", "message"];
    SplitJoin(tokens, TemplateSeparator);
    assert Join(tokens, [TemplateSeparator]) == template;
    FilterAllowedKeepsKeys(tokens);
    ParseOfTokens(template, tokens, tokens);
  }

  /** A template of one recognised key is that key alone. */
  lemma ParseSingleKeyExample(template: string)
    requires template == "message"
    ensures ListOfAllowedParts(template) == [MessageCommitKey]
  {
    SplitWithoutSeparator("message", TemplateSeparator);
    FilterAllowedKeepsKeys(["message"]);
  }

  /** Recognised keys keep their order and unknown tokens are skipped. */
  lemma ParseOrderExample(template: string)
    requires template == "short-sha|author|bogus|message"
    ensures ListOfAllowedParts(template) == [ShortShaCommitKey, AuthorCommitKey, MessageCommitKey]
  {
    var tokens := ["short-sha", "author", "bogus", "message"];
    OrderTokensJoin(tokens);
    ParseOfOrderTokens(template, tokens);
  }

  /** The four tokens of the order example, joined by the separator. */
  lemma OrderTokensJoin(tokens: seq<string>)
    requires tokens == ["short-sha", "author", "bogus", "message"]
    ensures Join(tokens, [TemplateSeparator]) == "short-sha|author|bogus|message"
  {
    var sep := [TemplateSeparator];
    assert Join(tokens[3..], sep) == "message" by {
      assert tokens[3..] == ["message"];
    }
    assert Join(tokens[2..], sep) == "bogus" + sep + "message" by {
      assert tokens[2..][1..] == tokens[3..];
    }
    assert Join(tokens[1..], sep) == "author" + sep + ("bogus" + sep + "message") by {
      assert tokens[1..][1..] == tokens[2..];
    }
    assert Join(tokens, sep) == "short-sha" + sep + ("author" + sep + ("bogus" + sep + "message"));
    LiteralOrderTemplate(sep);
  }

  /** The nested concatenation of the order example spelled as one string. */
  lemma LiteralOrderTemplate(sep: string)
    requires sep == [TemplateSeparator]
    ensures "short-sha" + sep + ("author" + sep + ("bogus" + sep + "message")) == "short-sha|author|bogus|message"
  {
  }

  /** The order example, with the template given as the join of its tokens. */
  lemma ParseOfOrderTokens(template: string, tokens: seq<string>)
    requires tokens == ["short-sha", "author", "bogus", "message"]
    requires template == Join(tokens, [TemplateSeparator])
    ensures ListOfAllowedParts(template) == [ShortShaCommitKey, AuthorCommitKey, MessageCommitKey]
  {
    SplitJoin(tokens, TemplateSeparator);
    FilterOrderExample(tokens);
    ParseOfTokens(template, tokens, ["short-sha", "author", "message"]);
  }

  /** A template of one unknown token falls back to the default. */
  lemma ParseUnknownSingleExample(template: string)
    requires template == "bogus"
    ensures ListOfAllowedParts(template) == DefaultTemplate
  {
    SplitWithoutSeparator(template, TemplateSeparator);
    FilterAllowedSingle(template);
  }

  lemma FilterOrderExample(tokens: seq<string>)
    requires tokens == ["short-sha", "author", "bogus", "message"]
    ensures FilterAllowed(tokens) == ["short-sha", "author", "message"]
  {
    assert FilterAllowed(tokens[3..]) == ["message"] by {
      assert tokens[3..] == ["message"];
      FilterAllowedSingle("message");
    }
    assert FilterAllowed(tokens[2..]) == ["message"] by {
      assert tokens[2..][1..] == tokens[3..];
      assert !IsValid(tokens[2]);
    }
    assert FilterAllowed(tokens[1..]) == ["author", "message"] by {
      assert tokens[1..][1..] == tokens[2..];
      assert IsValid(tokens[1]);
    }
    assert IsValid(tokens[0]);
  }

  /** A template whose tokens filter to a non-empty list parses to that list. */
  lemma ParseOfTokens(template: string, tokens: seq<string>, keys: seq<CommitTemplateKey>)
    requires Split(template, TemplateSeparator) == tokens
    requires FilterAllowed(tokens) == keys && |keys| > 0
    ensures ListOfAllowedParts(template) == keys
  {
  }
}
