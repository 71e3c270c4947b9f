/** `NotionMigrator._get_user_confirmation`: the reply to `Proceed with
    migration? (y/N)` is stripped of whitespace, lowered, and accepted only
    when it is `y` or `yes`. End of input or an interrupt counts as no. */
module Confirm {
  import opened Text
  import opened Notion

  /** `reply` is the line read, or `None` when reading raised `EOFError` or `KeyboardInterrupt`. */
  predicate Confirms(reply: Option<string>)
  {
    reply.Some? && var answer := Lower(Trim(reply.value, IsSpace)); answer == "y" || answer == "yes"
  }

  lemma {:induction false} TrimStartPast(pre: string, rest: string, drop: char -> bool)
    requires forall k :: 0 <= k < |pre| ==> drop(pre[k])
    ensures TrimStart(pre + rest, drop) == TrimStart(rest, drop)
  {
    if pre == [] {
      assert pre + rest == rest;
    } else {
      assert (pre + rest)[1..] == pre[1..] + rest;
      TrimStartPast(pre[1..], rest, drop);
    }
  }

  lemma {:induction false} TrimEndPast(rest: string, post: string, drop: char -> bool)
    requires forall k :: 0 <= k < |post| ==> drop(post[k])
    ensures TrimEnd(rest + post, drop) == TrimEnd(rest, drop)
    decreases |post|
  {
    if post == [] {
      assert rest + post == rest;
    } else {
      assert (rest + post)[..|rest + post| - 1] == rest + post[..|post| - 1];
      TrimEndPast(rest, post[..|post| - 1], drop);
    }
  }

  /** A character that lowers to a letter is that letter in either case, hence not whitespace. */
  lemma LowersToLetter(c: char, l: char)
    requires IsLowerLetter(l) && LowerChar(c) == l
    ensures (c == l || c as int == l as int - 32) && !IsSpace(c)
  {
  }

  /** `y` or `yes`, in any mix of cases and with any whitespace around it, is accepted. */
  lemma ConfirmAccepts(pre: string, w: string, post: string)
    requires forall k :: 0 <= k < |pre| ==> IsSpace(pre[k])
    requires forall k :: 0 <= k < |post| ==> IsSpace(post[k])
    requires Lower(w) == "y" || Lower(w) == "yes"
    ensures Confirms(Some(pre + w + post))
  {
    LowersToLetter(w[0], Lower(w)[0]);
    LowersToLetter(w[|w| - 1], Lower(w)[|w| - 1]);
    assert pre + w + post == pre + (w + post);
    TrimStartPast(pre, w + post, IsSpace);
    TrimEndPast(w, post, IsSpace);
  }

  /** An accepted reply is whitespace, then a word that lowers to `y` or `yes`, then whitespace. */
  lemma ConfirmOnlyIf(s: string)
    requires Confirms(Some(s))
    ensures exists i, j ::
              0 <= i <= j <= |s|
              && (forall k :: 0 <= k < i ==> IsSpace(s[k]))
              && (forall k :: j <= k < |s| ==> IsSpace(s[k]))
              && (Lower(s[i..j]) == "y" || Lower(s[i..j]) == "yes")
  {
    var t := TrimStart(s, IsSpace);
    var u := TrimEnd(t, IsSpace);
    TrimStartShape(s, IsSpace);
    TrimEndShape(t, IsSpace);
    var i := |s| - |t|;
    var j := i + |u|;
    assert s[i..j] == u;
    forall k | j <= k < |s| ensures IsSpace(s[k]) {
      assert s[k] == t[k - i];
    }
  }

  /** A blank reply, the `N` default, is refused. */
  lemma BlankRefused(s: string)
    requires forall k :: 0 <= k < |s| ==> IsSpace(s[k])
    ensures !Confirms(Some(s))
  {
    TrimStartShape(s, IsSpace);
    TrimEndShape(TrimStart(s, IsSpace), IsSpace);
  }
}
