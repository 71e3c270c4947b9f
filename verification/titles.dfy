/** `NotionMigrator._extract_database_title` and the plain-text join it
    shares with the table comment. */
module Titles {
  import opened Notion

  const UntitledPrefix: string := "Untitled_"

  /** `item.get("plain_text", "")`. */
  function PlainText(f: RichText): string
  {
    if f.plainText.Some? then f.plainText.value else ""
  }

  /** `"".join(item.get("plain_text", "") for item in fragments)`. */
  function JoinPlainText(fs: seq<RichText>): string
  {
    if fs == [] then "" else JoinPlainText(fs[..|fs| - 1]) + PlainText(fs[|fs| - 1])
  }

  /** Python's `id[:8]`: the first eight characters, or all of a shorter id. */
  function IdPrefix(id: string): string
  {
    if |id| <= 8 then id else id[..8]
  }

  /** The title fragments joined, or `Untitled_` and the id's first eight
      characters when the title list is empty or missing. */
  function ExtractDatabaseTitle(db: DbObject): string
  {
    if db.title.Some? && db.title.value != [] then JoinPlainText(db.title.value)
    else UntitledPrefix + IdPrefix(db.id)
  }

  /** Joining distributes over splitting the fragment list. */
  lemma {:induction false} JoinPlainTextAppend(a: seq<RichText>, b: seq<RichText>)
    ensures JoinPlainText(a + b) == JoinPlainText(a) + JoinPlainText(b)
    decreases |b|
  {
    if b == [] {
      assert a + b == a;
    } else {
      assert (a + b)[..|a + b| - 1] == a + b[..|b| - 1];
      JoinPlainTextAppend(a, b[..|b| - 1]);
    }
  }

  /** Fragment `i`'s plain text sits in the joined title right after the text
      of the fragments before it: the join keeps every fragment, in order. */
  lemma JoinPlainTextAt(fs: seq<RichText>, i: nat)
    requires i < |fs|
    ensures var off := |JoinPlainText(fs[..i])|;
      var t := PlainText(fs[i]);
      off + |t| <= |JoinPlainText(fs)|
      && JoinPlainText(fs)[off..off + |t|] == t
  {
    assert fs == fs[..i] + [fs[i]] + fs[i + 1..];
    JoinPlainTextAppend(fs[..i] + [fs[i]], fs[i + 1..]);
    JoinPlainTextAppend(fs[..i], [fs[i]]);
    assert JoinPlainText([fs[i]]) == PlainText(fs[i]) by {
      assert [fs[i]][..0] == [];
    }
  }

  /** A non-empty title list yields exactly its fragments' plain texts, one after another. */
  lemma TitleFromFragments(db: DbObject, i: nat)
    requires db.title.Some? && i < |db.title.value|
    ensures var fs := db.title.value;
      var r := ExtractDatabaseTitle(db);
      var off := |JoinPlainText(fs[..i])|;
      off + |PlainText(fs[i])| <= |r| && r[off..off + |PlainText(fs[i])|] == PlainText(fs[i])
      && (i == |fs| - 1 ==> |r| == off + |PlainText(fs[i])|)
  {
    var fs := db.title.value;
    JoinPlainTextAt(fs, i);
    if i == |fs| - 1 {
      assert fs[..i + 1] == fs;
    }
  }

  /** An empty or missing title list yields `Untitled_` and up to eight leading characters of the id. */
  lemma UntitledFallback(db: DbObject)
    requires db.title.None? || db.title.value == []
    ensures var r := ExtractDatabaseTitle(db);
      var n := if |db.id| < 8 then |db.id| else 8;
      |r| == |UntitledPrefix| + n && r[..|UntitledPrefix|] == UntitledPrefix
      && r[|UntitledPrefix|..] == db.id[..n]
  {
  }
}
