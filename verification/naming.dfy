/** The identifier sanitiser `NotionMigrator._clean_table_name`: turns a
    database title or property name into a PostgreSQL table name. */
module Naming {
  import opened Text

  const TablePrefix: string := "table_"
  const MaxNameLength: nat := 50

  /** `re.sub(r'[^\w]', '_', name)`. */
  function ReplaceNonWord(s: string): string
  {
    seq(|s|, i requires 0 <= i < |s| => if IsWordChar(s[i]) then s[i] else '_')
  }

  predicate NoDoubleUnderscore(s: string)
  {
    forall i :: 0 <= i < |s| - 1 ==> !(s[i] == '_' && s[i + 1] == '_')
  }

  predicate AllWordChars(s: string)
  {
    forall i :: 0 <= i < |s| ==> IsWordChar(s[i])
  }

  predicate AllUnderscores(s: string)
  {
    forall i :: 0 <= i < |s| ==> s[i] == '_'
  }

  /** `re.sub(r'_+', '_', s)`: every run of underscores becomes one. */
  function CollapseUnderscores(s: string): string
  {
    if |s| <= 1 then s
    else if s[0] == '_' && s[1] == '_' then CollapseUnderscores(s[1..])
    else [s[0]] + CollapseUnderscores(s[1..])
  }

  /** Collapsing leaves no `__`, keeps the first character, keeps a string of
      word characters one, and leaves nothing but underscores only from
      underscores. `CollapseKeepsOthers` states that no other character is lost. */
  lemma {:induction false} CollapseShape(s: string)
    ensures var r := CollapseUnderscores(s);
      NoDoubleUnderscore(r)
      && (|s| > 0 ==> |r| > 0 && r[0] == s[0])
      && (AllWordChars(s) ==> AllWordChars(r))
      && (AllUnderscores(r) <==> AllUnderscores(s))
  {
    if |s| > 1 {
      CollapseShape(s[1..]);
      var t := CollapseUnderscores(s[1..]);
      assert AllUnderscores(s) <==> s[0] == '_' && AllUnderscores(s[1..]) by {
        if s[0] == '_' && AllUnderscores(s[1..]) {
          forall i | 0 <= i < |s| ensures s[i] == '_' { if i > 0 { assert s[i] == s[1..][i - 1]; } }
        }
      }
      if !(s[0] == '_' && s[1] == '_') {
        var r := [s[0]] + t;
        assert r[1..] == t;
        // Here s[0] or s[1] is not an underscore, and r keeps both at its front.
        assert !AllUnderscores(s) && !AllUnderscores(r) by {
          assert r[0] == s[0] && r[1] == t[0] == s[1];
        }
        assert NoDoubleUnderscore(r) by {
          forall i | 0 <= i < |r| - 1 ensures !(r[i] == '_' && r[i + 1] == '_') {
            if i > 0 { assert r[i] == t[i - 1] && r[i + 1] == t[i]; }
          }
        }
        assert AllWordChars(s) ==> AllWordChars(r) by {
          if AllWordChars(s) {
            assert AllWordChars(s[1..]);
            forall i | 0 <= i < |r| ensures IsWordChar(r[i]) { if i > 0 { assert r[i] == t[i - 1]; } }
          }
        }
      }
    }
  }

  /** One more character at the end is appended to the collapsed string, unless
      it continues a run of underscores: each run becomes exactly one `_`. */
  lemma {:induction false} CollapseSnoc(s: string, c: char)
    ensures CollapseUnderscores(s + [c]) ==
      if s != [] && s[|s| - 1] == '_' && c == '_' then CollapseUnderscores(s) else CollapseUnderscores(s) + [c]
  {
    if s == [] {
      assert s + [c] == [c];
    } else if |s| == 1 {
      assert s + [c] == [s[0], c] && [s[0], c][1..] == [c];
    } else {
      assert (s + [c])[1..] == s[1..] + [c];
      CollapseSnoc(s[1..], c);
    }
  }

  /** A string with no `__` is left as it is. */
  lemma {:induction false} CollapseKeeps(s: string)
    requires NoDoubleUnderscore(s)
    ensures CollapseUnderscores(s) == s
  {
    if |s| > 1 {
      CollapseKeeps(s[1..]);
    }
  }

  /** Steps one to three of the sanitiser: replace non-word characters,
      collapse runs of underscores, strip underscores from both ends. */
  function Stripped(name: string): string
  {
    Trim(CollapseUnderscores(ReplaceNonWord(name)), IsUnderscore)
  }

  /** Step four: `table_` in front of an empty or digit-led name. */
  function Prefixed(cleaned: string): string
  {
    if cleaned == [] || IsDigit(cleaned[0]) then TablePrefix + cleaned else cleaned
  }

  /** Step five: a name over 50 characters is cut to 50 and right-stripped of underscores. */
  function Bounded(p: string): string
  {
    if |p| > MaxNameLength then TrimEnd(p[..MaxNameLength], IsUnderscore) else p
  }

  /** `_clean_table_name`: the five steps, then lower-casing. */
  function CleanTableName(name: string): string
    requires IsAscii(name)
  {
    Lower(Bounded(Prefixed(Stripped(name))))
  }

  predicate IsIdentChar(c: char) { IsLowerLetter(c) || IsDigit(c) || c == '_' }

  /** The identifier grammar: `[a-z][a-z0-9_]*`-like, no `__`, no trailing `_`, at most 50 characters. */
  predicate IsCleanName(s: string)
  {
    0 < |s| <= MaxNameLength
    && (forall i :: 0 <= i < |s| ==> IsIdentChar(s[i]))
    && NoDoubleUnderscore(s)
    && s[0] != '_' && !IsDigit(s[0])
    && s[|s| - 1] != '_'
  }

  /** A slice keeps word characters and the absence of `__`. */
  lemma SliceShape(c: string, k: nat, n: nat)
    requires k + n <= |c|
    ensures AllWordChars(c) ==> AllWordChars(c[k..k + n])
    ensures NoDoubleUnderscore(c) ==> NoDoubleUnderscore(c[k..k + n])
  {
    var t := c[k..k + n];
    if NoDoubleUnderscore(c) {
      forall i | 0 <= i < |t| - 1 ensures !(t[i] == '_' && t[i + 1] == '_') {
        assert t[i] == c[k + i] && t[i + 1] == c[k + i + 1];
      }
    }
  }

  /** Stripping underscores from both ends keeps a slice that neither starts
      nor ends with one, and is empty exactly when only underscores were there. */
  lemma TrimUnderscoresShape(c: string)
    ensures var t := Trim(c, IsUnderscore);
      (AllWordChars(c) ==> AllWordChars(t))
      && (NoDoubleUnderscore(c) ==> NoDoubleUnderscore(t))
      && (t == [] || (t[0] != '_' && t[|t| - 1] != '_'))
      && (t == [] <==> AllUnderscores(c))
  {
    var a := TrimStart(c, IsUnderscore);
    var t := TrimEnd(a, IsUnderscore);
    TrimStartShape(c, IsUnderscore);
    TrimEndShape(a, IsUnderscore);
    var k := |c| - |a|;
    assert t == c[k..k + |t|];
    SliceShape(c, k, |t|);
    if t != [] {
      assert t[0] == a[0];
      assert !AllUnderscores(c) by { assert c[k] == t[0]; }
    } else {
      forall i | 0 <= i < |c| ensures c[i] == '_' {
        assert IsUnderscore(c[i]);
      }
    }
  }

  /** Replacing non-word characters gives only underscores exactly when the
      input holds no ASCII letter or digit. */
  lemma ReplaceNonWordShape(name: string)
    ensures AllWordChars(ReplaceNonWord(name))
    ensures AllUnderscores(ReplaceNonWord(name)) <==> forall i :: 0 <= i < |name| ==> !IsAlnum(name[i])
  {
    var w := ReplaceNonWord(name);
    if AllUnderscores(w) {
      forall i | 0 <= i < |name| ensures !IsAlnum(name[i]) { assert w[i] == '_'; }
    }
  }

  /** The underscore-stripped middle of the sanitiser: word characters only,
      no `__`, no underscore at either end, and empty exactly when the input
      holds no ASCII letter or digit. */
  lemma StrippedShape(name: string)
    ensures var t := Stripped(name);
      AllWordChars(t) && NoDoubleUnderscore(t)
      && (t == [] || (t[0] != '_' && t[|t| - 1] != '_'))
      && (t == [] <==> forall i :: 0 <= i < |name| ==> !IsAlnum(name[i]))
  {
    var w := ReplaceNonWord(name);
    ReplaceNonWordShape(name);
    CollapseShape(w);
    TrimUnderscoresShape(CollapseUnderscores(w));
  }

  /** The name after the `table_` prefix step: word characters, no `__`,
      not led by `_` or a digit, ending in `_` only when it is `table_`. */
  lemma PrefixedShape(name: string)
    ensures var p := Prefixed(Stripped(name));
      0 < |p| && AllWordChars(p) && NoDoubleUnderscore(p)
      && p[0] != '_' && !IsDigit(p[0])
      && (p[|p| - 1] == '_' <==> p == TablePrefix)
  {
    var cleaned := Stripped(name);
    StrippedShape(name);
    if cleaned == [] || IsDigit(cleaned[0]) {
      var p := TablePrefix + cleaned;
      forall i | 0 <= i < |p| - 1 ensures !(p[i] == '_' && p[i + 1] == '_') {
        if i >= 6 { assert p[i] == cleaned[i - 6] && p[i + 1] == cleaned[i - 5]; }
      }
      if cleaned != [] { assert p[|p| - 1] == cleaned[|cleaned| - 1]; }
    }
  }

  /** The name after the 50-character cut: as before the cut, and now at most 50 long. */
  lemma BoundedShape(p: string)
    requires 0 < |p| && AllWordChars(p) && NoDoubleUnderscore(p)
    requires p[0] != '_' && !IsDigit(p[0])
    requires p[|p| - 1] == '_' <==> p == TablePrefix
    ensures var b := Bounded(p);
      0 < |b| <= MaxNameLength && AllWordChars(b) && NoDoubleUnderscore(b)
      && b[0] != '_' && !IsDigit(b[0])
      && (b[|b| - 1] == '_' <==> b == TablePrefix)
  {
    if |p| > MaxNameLength {
      var cut := p[..MaxNameLength];
      var b := TrimEnd(cut, IsUnderscore);
      TrimEndShape(cut, IsUnderscore);
      assert b == p[0..|b|];
      SliceShape(p, 0, |b|);
      assert b[0] == p[0];
    }
  }

  /** Lower-casing word characters gives identifier characters and moves no underscore or digit. */
  lemma LowerShape(b: string)
    requires AllWordChars(b)
    ensures var r := Lower(b);
      |r| == |b| && (forall i :: 0 <= i < |r| ==> IsIdentChar(r[i]))
      && (forall i :: 0 <= i < |r| ==> (r[i] == '_' <==> b[i] == '_') && (IsDigit(r[i]) <==> IsDigit(b[i])))
  {
  }

  /** The output grammar of `_clean_table_name` on ASCII input: non-empty,
      at most 50 characters from `[a-z0-9_]`, no `__`, not led by `_` or a
      digit, and ending in `_` exactly when it is `table_`. */
  lemma CleanTableNameGrammar(name: string)
    requires IsAscii(name)
    ensures var r := CleanTableName(name);
      0 < |r| <= MaxNameLength
      && (forall i :: 0 <= i < |r| ==> IsIdentChar(r[i]))
      && NoDoubleUnderscore(r)
      && r[0] != '_' && !IsDigit(r[0])
      && (r[|r| - 1] == '_' <==> r == TablePrefix)
  {
    var p := Prefixed(Stripped(name));
    PrefixedShape(name);
    BoundedShape(p);
    var b := Bounded(p);
    var r := Lower(b);
    LowerShape(b);
    assert NoDoubleUnderscore(r);
    LowerKeepsLowerCase(TablePrefix);
    assert r == TablePrefix <==> b == TablePrefix by {
      if r == TablePrefix { assert r[|r| - 1] == '_'; assert b[|b| - 1] == '_'; }
    }
  }

  /** `_clean_table_name` yields `table_` exactly for input with no ASCII
      letter or digit (the empty string among them). */
  lemma CleanTableNameDegenerate(name: string)
    requires IsAscii(name)
    ensures CleanTableName(name) == TablePrefix <==> forall i :: 0 <= i < |name| ==> !IsAlnum(name[i])
  {
    var cleaned := Stripped(name);
    StrippedShape(name);
    PrefixedShape(name);
    var p := Prefixed(cleaned);
    BoundedShape(p);
    var b := Bounded(p);
    LowerShape(b);
    if cleaned == [] {
      LowerKeepsLowerCase(TablePrefix);
    } else {
      // `p` ends in the last character of `cleaned`, and a cut one is right-stripped.
      assert p[|p| - 1] == cleaned[|cleaned| - 1];
      if |p| > MaxNameLength {
        TrimEndShape(p[..MaxNameLength], IsUnderscore);
      }
      assert b[|b| - 1] != '_';
      assert Lower(b)[|b| - 1] != '_';
    }
  }

  /** Every name in the identifier grammar is a fixed point of the sanitiser. */
  lemma CleanTableNameFixesCleanNames(s: string)
    requires IsCleanName(s)
    ensures IsAscii(s) && CleanTableName(s) == s
  {
    assert ReplaceNonWord(s) == s;
    CollapseKeeps(s);
    assert TrimStart(s, IsUnderscore) == s;
    assert TrimEnd(s, IsUnderscore) == s;
    LowerKeepsLowerCase(s);
  }

  /** Idempotence, everywhere except on the degenerate result `table_`. */
  lemma CleanTableNameIdempotent(name: string)
    requires IsAscii(name)
    requires CleanTableName(name) != TablePrefix
    ensures var r := CleanTableName(name); IsAscii(r) && CleanTableName(r) == r
  {
    CleanTableNameGrammar(name);
    CleanTableNameFixesCleanNames(CleanTableName(name));
  }

  /** The characters of `s` other than `_`, in order. */
  function WithoutUnderscores(s: string): string
  {
    if s == [] then [] else (if s[0] == '_' then [] else [s[0]]) + WithoutUnderscores(s[1..])
  }

  /** The ASCII letters and digits of `s`, in order. */
  function Alnums(s: string): string
  {
    if s == [] then [] else (if IsAlnum(s[0]) then [s[0]] else []) + Alnums(s[1..])
  }

  /** What the sanitiser keeps of `name` apart from underscores: its ASCII
      letters and digits, lower-cased, behind `table` when there are none or
      the first is a digit. */
  function Spelling(name: string): string
  {
    var a := Alnums(name);
    (if a == [] || IsDigit(a[0]) then "table" else "") + Lower(a)
  }

  lemma {:induction false} WithoutUnderscoresAppend(a: string, b: string)
    ensures WithoutUnderscores(a + b) == WithoutUnderscores(a) + WithoutUnderscores(b)
  {
    if a == [] {
      assert a + b == b;
    } else {
      assert (a + b)[0] == a[0] && (a + b)[1..] == a[1..] + b;
      WithoutUnderscoresAppend(a[1..], b);
    }
  }

  lemma {:induction false} WithoutUnderscoresNone(s: string)
    requires AllUnderscores(s)
    ensures WithoutUnderscores(s) == []
  {
    if s != [] {
      assert forall i :: 0 <= i < |s| - 1 ==> s[1..][i] == s[i + 1];
      WithoutUnderscoresNone(s[1..]);
    }
  }

  lemma LowerAppend(a: string, b: string)
    ensures Lower(a + b) == Lower(a) + Lower(b)
  {
    assert forall i :: 0 <= i < |a + b| ==> Lower(a + b)[i] == (Lower(a) + Lower(b))[i];
  }

  /** Lower-casing commutes with dropping underscores. */
  lemma {:induction false} LowerWithoutUnderscores(s: string)
    ensures WithoutUnderscores(Lower(s)) == Lower(WithoutUnderscores(s))
  {
    if s != [] {
      var l := Lower(s);
      assert l[0] == LowerChar(s[0]) && l[1..] == Lower(s[1..]);
      LowerWithoutUnderscores(s[1..]);
      LowerAppend(if s[0] == '_' then [] else [s[0]], WithoutUnderscores(s[1..]));
    }
  }

  /** Replacing non-word characters by `_` leaves, apart from underscores,
      exactly the input's letters and digits, in order. */
  lemma {:induction false} ReplaceNonWordKeepsAlnums(name: string)
    ensures WithoutUnderscores(ReplaceNonWord(name)) == Alnums(name)
  {
    if name != [] {
      var w := ReplaceNonWord(name);
      assert w[1..] == ReplaceNonWord(name[1..]);
      ReplaceNonWordKeepsAlnums(name[1..]);
    }
  }

  /** Collapsing removes underscores only: every other character stays, in order. */
  lemma {:induction false} CollapseKeepsOthers(s: string)
    ensures WithoutUnderscores(CollapseUnderscores(s)) == WithoutUnderscores(s)
  {
    if |s| > 1 {
      CollapseKeepsOthers(s[1..]);
      if !(s[0] == '_' && s[1] == '_') {
        var r := [s[0]] + CollapseUnderscores(s[1..]);
        assert r[0] == s[0] && r[1..] == CollapseUnderscores(s[1..]);
      }
    }
  }

  lemma {:induction false} TrimStartKeepsOthers(c: string)
    ensures WithoutUnderscores(TrimStart(c, IsUnderscore)) == WithoutUnderscores(c)
  {
    if c != [] && c[0] == '_' {
      TrimStartKeepsOthers(c[1..]);
    }
  }

  lemma {:induction false} TrimEndKeepsOthers(c: string)
    ensures WithoutUnderscores(TrimEnd(c, IsUnderscore)) == WithoutUnderscores(c)
  {
    if c != [] && c[|c| - 1] == '_' {
      var init := c[..|c| - 1];
      TrimEndKeepsOthers(init);
      assert c == init + ['_'];
      WithoutUnderscoresAppend(init, ['_']);
    }
  }

  /** Stripping underscores from both ends removes underscores only. */
  lemma TrimUnderscoresKeepsOthers(c: string)
    ensures WithoutUnderscores(Trim(c, IsUnderscore)) == WithoutUnderscores(c)
  {
    TrimStartKeepsOthers(c);
    TrimEndKeepsOthers(TrimStart(c, IsUnderscore));
  }

  /** Steps one to three keep, apart from underscores, exactly the input's
      ASCII letters and digits, in order. */
  lemma StrippedKeepsAlnums(name: string)
    ensures WithoutUnderscores(Stripped(name)) == Alnums(name)
  {
    ReplaceNonWordKeepsAlnums(name);
    CollapseKeepsOthers(ReplaceNonWord(name));
    TrimUnderscoresKeepsOthers(CollapseUnderscores(ReplaceNonWord(name)));
  }

  lemma TablePrefixSpelling()
    ensures WithoutUnderscores(TablePrefix) == "table" && Lower("table") == "table"
  {
    assert TablePrefix[1..] == "able_" && "able_"[1..] == "ble_" && "ble_"[1..] == "le_";
    assert "le_"[1..] == "e_" && "e_"[1..] == "_" && "_"[1..] == [];
    LowerKeepsLowerCase("table");
  }

  /** The stripped middle is empty exactly when the input has no letter or
      digit, and otherwise starts with the first of them. */
  lemma StrippedHead(name: string)
    ensures var t := Stripped(name); var a := Alnums(name);
      (t == [] <==> a == []) && (t != [] ==> a[0] == t[0])
  {
    StrippedKeepsAlnums(name);
    StrippedShape(name);
  }

  /** The name before the cut, lower-cased, spells the input's letters and digits. */
  lemma PrefixedSpelling(name: string)
    ensures WithoutUnderscores(Lower(Prefixed(Stripped(name)))) == Spelling(name)
  {
    var t := Stripped(name);
    var a := Alnums(name);
    StrippedKeepsAlnums(name);
    StrippedHead(name);
    LowerWithoutUnderscores(Prefixed(t));
    if t == [] || IsDigit(t[0]) {
      WithoutUnderscoresAppend(TablePrefix, t);
      TablePrefixSpelling();
      LowerAppend("table", a);
    }
  }

  /** When no cut happens, the sanitised name spells, apart from underscores,
      the input's ASCII letters and digits lower-cased and in order, behind
      `table` when there are none or the first is a digit. */
  lemma CleanTableNameKeepsAlnums(name: string)
    requires IsAscii(name) && |Prefixed(Stripped(name))| <= MaxNameLength
    ensures WithoutUnderscores(CleanTableName(name)) == Spelling(name)
  {
    PrefixedSpelling(name);
  }

  /** Cutting a name without `__` to 50 characters and right-stripping `_` keeps a prefix of 49 or 50. */
  lemma CutBound(p: string)
    requires |p| > MaxNameLength && NoDoubleUnderscore(p)
    ensures var b := Bounded(p); MaxNameLength - 1 <= |b| <= MaxNameLength && b == p[..|b|]
  {
    TrimEndShape(p[..MaxNameLength], IsUnderscore);
  }

  /** When the cut happens it drops at most one trailing underscore: the
      name keeps 49 or 50 characters, and what it spells is a prefix of
      what the uncut name would. */
  lemma CleanTableNameCut(name: string)
    requires IsAscii(name) && |Prefixed(Stripped(name))| > MaxNameLength
    ensures var r := CleanTableName(name);
      var w := WithoutUnderscores(r);
      MaxNameLength - 1 <= |r| <= MaxNameLength && |w| <= |Spelling(name)| && w == Spelling(name)[..|w|]
  {
    var p := Prefixed(Stripped(name));
    var b := Bounded(p);
    PrefixedShape(name);
    PrefixedSpelling(name);
    CutBound(p);
    assert p == b + p[|b|..];
    LowerAppend(b, p[|b|..]);
    WithoutUnderscoresAppend(Lower(b), Lower(p[|b|..]));
  }

  /** Where the underscores of the stripped name go, built left to right: the
      ASCII letters and digits are kept, each run of other characters between
      two of them becomes one `_`, and runs at either end vanish. */
  function Joined(s: string): string
  {
    if s == [] then []
    else
      var init, c := s[..|s| - 1], s[|s| - 1];
      if !IsAlnum(c) then Joined(init)
      else if init == [] || IsAlnum(init[|init| - 1]) || Joined(init) == [] then Joined(init) + [c]
      else Joined(init) + "_" + [c]
  }

  /** `Joined` never ends in `_`. */
  lemma {:induction false} JoinedEnds(s: string)
    ensures Joined(s) == [] || IsAlnum(Joined(s)[|Joined(s)| - 1])
  {
    if s != [] && !IsAlnum(s[|s| - 1]) {
      JoinedEnds(s[..|s| - 1]);
    }
  }

  /** Before the trailing underscore is stripped, the name is `Joined(s)`, plus
      one `_` when `s` ends in a run of other characters after a letter or digit. */
  lemma {:induction false} LeftTrimmedIsJoined(s: string)
    ensures TrimStart(CollapseUnderscores(ReplaceNonWord(s)), IsUnderscore) ==
      if s != [] && !IsAlnum(s[|s| - 1]) && Joined(s) != [] then Joined(s) + "_" else Joined(s)
  {
    if s != [] {
      var init, c := s[..|s| - 1], s[|s| - 1];
      var w := ReplaceNonWord(init);
      var x := if IsAlnum(c) then c else '_';
      assert ReplaceNonWord(s) == w + [x];
      assert init != [] ==> w[|w| - 1] == (if IsAlnum(init[|init| - 1]) then init[|init| - 1] else '_');
      LeftTrimmedIsJoined(init);
      CollapseSnoc(w, x);
      TrimStartSnoc(CollapseUnderscores(w), x, IsUnderscore);
    }
  }

  /** Steps one to three of the sanitiser are the reference `Joined`. */
  lemma StrippedIsJoined(name: string)
    ensures Stripped(name) == Joined(name)
  {
    LeftTrimmedIsJoined(name);
    JoinedEnds(name);
    var j := Joined(name);
    if name != [] && !IsAlnum(name[|name| - 1]) && j != [] {
      assert (j + "_")[..|j|] == j;
      assert TrimEnd(j + "_", IsUnderscore) == TrimEnd(j, IsUnderscore);
    }
    assert TrimEnd(j, IsUnderscore) == j;
  }

  /** Characters that are no letter or digit, appended at the end, change nothing. */
  lemma {:induction false} JoinedDropTail(s: string, q: string)
    requires forall i :: 0 <= i < |q| ==> !IsAlnum(q[i])
    ensures Joined(s + q) == Joined(s)
  {
    if q == [] {
      assert s + q == s;
    } else {
      var init := q[..|q| - 1];
      assert (s + q)[..|s + q| - 1] == s + init && (s + q)[|s + q| - 1] == q[|q| - 1];
      JoinedDropTail(s, init);
    }
  }

  /** A run of letters and digits after a prefix without any is kept whole. */
  lemma {:induction false} JoinedWord(p: string, w: string)
    requires Joined(p) == []
    requires forall i :: 0 <= i < |w| ==> IsAlnum(w[i])
    ensures Joined(p + w) == w
  {
    if w == [] {
      assert p + w == p;
    } else {
      var init := w[..|w| - 1];
      assert (p + w)[..|p + w| - 1] == p + init && (p + w)[|p + w| - 1] == w[|w| - 1];
      JoinedWord(p, init);
      if init == [] {
        assert p + init == p;
      } else {
        assert (p + init)[|p + init| - 1] == init[|init| - 1];
      }
    }
  }

  /** `Joined` on a string with one more character at the end. */
  lemma JoinedSnoc(s: string, d: char)
    ensures Joined(s + [d]) ==
      if !IsAlnum(d) then Joined(s)
      else if s == [] || IsAlnum(s[|s| - 1]) || Joined(s) == [] then Joined(s) + [d]
      else Joined(s) + "_" + [d]
  {
    assert (s + [d])[..|s|] == s;
  }

  /** A string ending in a letter or digit joins to something non-empty. */
  lemma JoinedNonEmpty(s: string)
    requires s != [] && IsAlnum(s[|s| - 1])
    ensures Joined(s) != []
  {
    JoinedSnoc(s[..|s| - 1], s[|s| - 1]);
    assert s[..|s| - 1] + [s[|s| - 1]] == s;
  }

  /** Proof helper: one more character after a separator, given the claim before it. */
  lemma JoinedAcrossSnoc(a: string, c: char, init: string, d: char)
    requires !IsAlnum(c) && Joined(a) != []
    requires Joined(a + [c] + init) == if Joined(init) == [] then Joined(a) else Joined(a) + "_" + Joined(init)
    ensures Joined(a + [c] + init + [d]) == if Joined(init + [d]) == [] then Joined(a) else Joined(a) + "_" + Joined(init + [d])
  {
    var s := a + [c] + init;
    JoinedSnoc(s, d);
    JoinedSnoc(init, d);
    if IsAlnum(d) {
      var ja, ji := Joined(a), Joined(init);
      assert s[|s| - 1] == if init == [] then c else init[|init| - 1];
      if init != [] && IsAlnum(init[|init| - 1]) {
        JoinedNonEmpty(init);
        assert (ja + "_" + ji) + [d] == ja + "_" + (ji + [d]);
      } else if ji != [] {
        assert (ja + "_" + ji) + "_" + [d] == ja + "_" + (ji + "_" + [d]);
      }
    }
  }

  /** Joining across one separator character: one `_` between what comes
      before and what comes after, when letters or digits come after. */
  lemma {:induction false} JoinedAcross(a: string, c: char, b: string)
    requires !IsAlnum(c) && Joined(a) != []
    ensures Joined(a + [c] + b) == if Joined(b) == [] then Joined(a) else Joined(a) + "_" + Joined(b)
  {
    if b == [] {
      assert a + [c] + b == a + [c];
      JoinedSnoc(a, c);
    } else {
      var init, d := b[..|b| - 1], b[|b| - 1];
      assert b == init + [d] && a + [c] + b == a + [c] + init + [d];
      JoinedAcross(a, c, init);
      JoinedAcrossSnoc(a, c, init, d);
    }
  }

  /** One `_` per separator: a character that is no ASCII letter or digit, with
      letters or digits on both sides of it, leaves exactly one `_` between
      what the two sides strip to. */
  lemma StrippedSeparator(a: string, c: char, b: string)
    requires !IsAlnum(c) && Alnums(a) != [] && Alnums(b) != []
    ensures Stripped(a + [c] + b) == Stripped(a) + "_" + Stripped(b)
  {
    StrippedIsJoined(a);
    StrippedIsJoined(b);
    StrippedIsJoined(a + [c] + b);
    StrippedHead(a);
    StrippedHead(b);
    JoinedAcross(a, c, b);
  }

  /** A name whose letters and digits form one unbroken run strips to exactly
      that run: other characters around it leave no `_` behind. */
  lemma StrippedSingleWord(p: string, w: string, q: string)
    requires forall i :: 0 <= i < |p| ==> !IsAlnum(p[i])
    requires forall i :: 0 <= i < |w| ==> IsAlnum(w[i])
    requires forall i :: 0 <= i < |q| ==> !IsAlnum(q[i])
    ensures Stripped(p + w + q) == w
  {
    StrippedIsJoined(p + w + q);
    JoinedDropTail([], p);
    assert [] + p == p;
    JoinedWord(p, w);
    JoinedDropTail(p + w, q);
  }

  /** A non-empty run of letters and digits strips to itself. */
  lemma StrippedWord(w: string)
    requires w != [] && forall i :: 0 <= i < |w| ==> IsAlnum(w[i])
    ensures Stripped(w) == w && Alnums(w) != []
  {
    StrippedSingleWord([], w, []);
    assert [] + w + [] == w;
    StrippedHead(w);
  }

  lemma TwoWords(a: string, b: string)
    requires a != [] && forall i :: 0 <= i < |a| ==> IsAlnum(a[i])
    requires b != [] && forall i :: 0 <= i < |b| ==> IsAlnum(b[i])
    ensures Stripped(a + " " + b) == a + "_" + b
  {
    StrippedWord(a);
    StrippedWord(b);
    StrippedSeparator(a, ' ', b);
  }

  /** A title of two words separated by a space, as the allow-listed
      `"Cloud spaces"`, sanitises to both words lower-cased and joined by one `_`. */
  lemma TwoWordsTitle(a: string, b: string)
    requires a != [] && !IsDigit(a[0]) && forall i :: 0 <= i < |a| ==> IsAlnum(a[i])
    requires b != [] && forall i :: 0 <= i < |b| ==> IsAlnum(b[i])
    requires |a| + 1 + |b| <= MaxNameLength
    ensures IsAscii(a + " " + b) && CleanTableName(a + " " + b) == Lower(a) + "_" + Lower(b)
  {
    var s := a + " " + b;
    assert IsAscii(s) by {
      forall i | 0 <= i < |s| ensures s[i] as int < 128 {
        if i < |a| { assert s[i] == a[i]; } else if i > |a| { assert s[i] == b[i - |a| - 1]; }
      }
    }
    TwoWords(a, b);
    var t := a + "_" + b;
    assert t[0] == a[0];
    LowerAppend(a + "_", b);
    LowerAppend(a, "_");
  }

  /** `table_` is not a fixed point: the empty title maps to `table_`, which maps to `table`. */
  lemma TablePrefixNotFixed()
    ensures CleanTableName("") == TablePrefix
    ensures CleanTableName(TablePrefix) == "table"
  {
    CleanTableNameDegenerate("");
    assert ReplaceNonWord(TablePrefix) == TablePrefix;
    CollapseKeeps(TablePrefix);
    assert TrimStart(TablePrefix, IsUnderscore) == TablePrefix;
    assert TrimEnd(TablePrefix, IsUnderscore) == "table" by {
      assert TablePrefix[..5] == "table";
      assert TrimEnd("table", IsUnderscore) == "table";
    }
    LowerKeepsLowerCase("table");
  }

  lemma TasksStripped()
    ensures Stripped("Tasks ") == "Tasks"
  {
    var a := ReplaceNonWord("Tasks ");
    assert a == "Tasks_" by {
      assert |a| == 6 && a[5] == '_';
      assert forall i :: 0 <= i < 5 ==> a[i] == "Tasks "[i];
    }
    CollapseKeeps("Tasks_");
    assert TrimStart("Tasks_", IsUnderscore) == "Tasks_";
    assert "Tasks_"[..5] == "Tasks";
  }

  /** A title with a trailing space, as in `"Tasks "`, loses it and is lower-cased. */
  lemma TrailingSpaceTitle()
    ensures CleanTableName("Tasks ") == "tasks"
  {
    TasksStripped();
    assert Bounded(Prefixed("Tasks")) == "Tasks";
    assert forall i :: 0 <= i < 5 ==> LowerChar("Tasks"[i]) == "tasks"[i];
  }

}
