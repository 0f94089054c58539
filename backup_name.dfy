/**
  Derivation of a warehouse table name from a backup-descriptor object name.

  The importer runs Python's `re.match` with the pattern `\S+\.(\S*)\.backup_info`
  on every object name. `re.match` anchors the pattern at the start of the name but
  not at its end, so the name matches iff it can be written
  `P + "." + G + ".backup_info" + rest` with `P` non-empty and neither `P` nor `G`
  holding whitespace. Python's backtracking tries the longest `P` first and, for that
  `P`, the longest `G`; the table name is the captured group `G`.

  A candidate decomposition is described by two indices: `dot`, the position of the
  `.` that ends `P`, and `end`, the position where `.backup_info` starts.
*/
module BackupName {
  import opened Wrappers

  /** The literal tail of the pattern, `\.backup_info`. */
  const Suffix: string := ".backup_info"

  /** Python 3's `\s` on `str` patterns: the characters for which `str.isspace()` holds. */
  predicate IsSpace(c: char) {
    c == ' ' || ('\t' <= c <= '\r') || ('\U{1C}' <= c <= '\U{1F}') ||
    c == '\U{85}' || c == '\U{A0}' || c == '\U{1680}' ||
    ('\U{2000}' <= c <= '\U{200A}') || c == '\U{2028}' || c == '\U{2029}' ||
    c == '\U{202F}' || c == '\U{205F}' || c == '\U{3000}'
  }

  /** The string would be matched entirely by `\S*`. */
  predicate NoSpace(s: string) {
    forall k :: 0 <= k < |s| ==> !IsSpace(s[k])
  }

  /**
    `name[..dot]` is `P`, `name[dot]` is the separating `.`, `name[dot+1..end]` is the
    group `G`, and `.backup_info` starts at `end`.
  */
  predicate IsSplit(name: string, dot: int, end: int) {
    1 <= dot < end && end + |Suffix| <= |name| &&
    name[dot] == '.' && name[end..end + |Suffix|] == Suffix &&
    NoSpace(name[..dot]) && NoSpace(name[dot + 1..end])
  }

  /** `(dot, end)` is a split and no split comes later in Python's backtracking order. */
  ghost predicate Greatest(name: string, dot: int, end: int, maxDot: int) {
    forall d, e :: IsSplit(name, d, e) && d <= maxDot ==> d < dot || (d == dot && e <= end)
  }

  /** The greedy `\S*`: the longest group ending at or before `hi` for the given `dot`. */
  function LongestGroup(name: string, dot: nat, hi: int): (r: Option<nat>)
    decreases hi - dot
    ensures r.Some? ==> dot < r.value <= hi && IsSplit(name, dot, r.value)
    ensures r.Some? ==> forall e :: r.value < e <= hi ==> !IsSplit(name, dot, e)
    ensures r.None? ==> forall e :: dot < e <= hi ==> !IsSplit(name, dot, e)
  {
    if hi <= dot then None
    else if IsSplit(name, dot, hi) then Some(hi)
    else LongestGroup(name, dot, hi - 1)
  }

  /** The greedy `\S+` with backtracking: tries `dot = maxDot, maxDot - 1, ..., 1`. */
  function SearchSplit(name: string, maxDot: int): (r: Option<(nat, nat)>)
    requires maxDot <= |name|
    decreases maxDot
    ensures r.Some? ==> r.value.0 <= maxDot && IsSplit(name, r.value.0, r.value.1)
    ensures r.Some? ==> Greatest(name, r.value.0, r.value.1, maxDot)
    ensures r.None? ==> forall d, e :: d <= maxDot ==> !IsSplit(name, d, e)
  {
    if maxDot < 1 then None
    else match LongestGroup(name, maxDot, |name|)
      case Some(e) => Some((maxDot, e))
      case None => SearchSplit(name, maxDot - 1)
  }

  /** The decomposition `re.match` settles on, if there is one. */
  function LongestSplit(name: string): (r: Option<(nat, nat)>)
    ensures r.Some? ==> IsSplit(name, r.value.0, r.value.1) && Greatest(name, r.value.0, r.value.1, |name|)
    ensures r.None? ==> forall d, e :: !IsSplit(name, d, e)
  {
    SearchSplit(name, |name|)
  }

  /** `m.group(1)` when `re.match` succeeds, `None` when it does not. */
  function TableName(name: string): (r: Option<string>)
    ensures r.Some? ==> NoSpace(r.value) && |r.value| + 1 + |Suffix| < |name|
  {
    match LongestSplit(name)
    case Some((d, e)) => Some(name[d + 1..e])
    case None => None
  }

  /**
    The name matches iff it has a split, and then the table name is the group of the
    split that comes first in Python's backtracking order (longest `P`, then longest `G`).
  */
  lemma TableNameSpec(name: string)
    ensures TableName(name).Some? <==> exists d, e :: IsSplit(name, d, e)
    ensures TableName(name).Some? ==>
              exists d, e :: IsSplit(name, d, e) && TableName(name).value == name[d + 1..e] &&
                forall d', e' :: IsSplit(name, d', e') ==> d' < d || (d' == d && e' <= e)
  {
    if LongestSplit(name).Some? {
      var (d, e) := LongestSplit(name).value;
      assert IsSplit(name, d, e);
    }
  }

  /** Every split is the pattern's decomposition `P + "." + G + ".backup_info" + rest`. */
  lemma SplitIsDecomposition(name: string, dot: int, end: int)
    requires IsSplit(name, dot, end)
    ensures name == name[..dot] + "." + name[dot + 1..end] + Suffix + name[end + |Suffix|..]
    ensures |name[..dot]| > 0 && NoSpace(name[..dot]) && NoSpace(name[dot + 1..end])
  {
    calc {
      name;
      name[..dot] + name[dot..];
      { assert name[dot..] == [name[dot]] + name[dot + 1..]; }
      name[..dot] + "." + name[dot + 1..];
      { assert name[dot + 1..] == name[dot + 1..end] + name[end..]; }
      name[..dot] + "." + name[dot + 1..end] + name[end..];
      { assert name[end..] == name[end..end + |Suffix|] + name[end + |Suffix|..]; }
      name[..dot] + "." + name[dot + 1..end] + Suffix + name[end + |Suffix|..];
    }
  }

  /** Conversely, every such decomposition of a name is a split, so the name matches. */
  lemma DecompositionIsSplit(p: string, g: string, rest: string)
    requires |p| > 0 && NoSpace(p) && NoSpace(g)
    ensures IsSplit(p + "." + g + Suffix + rest, |p|, |p| + 1 + |g|)
    ensures TableName(p + "." + g + Suffix + rest).Some?
  {
    var name := p + "." + g + Suffix + rest;
    assert name[..|p|] == p;
    assert name[|p| + 1..|p| + 1 + |g|] == g;
    assert name[|p| + 1 + |g|..|p| + 1 + |g| + |Suffix|] == Suffix;
    assert IsSplit(name, |p|, |p| + 1 + |g|);
  }

  /**
    A descriptor written `P.G.backup_info` with a dot-free group yields exactly `G`,
    whatever dots `P` holds.
  */
  lemma {:induction false} TableNameOfDescriptor(name: string, p: string, g: string)
    requires |p| > 0 && NoSpace(p) && NoSpace(g) && '.' !in g
    requires name == p + "." + g + Suffix
    ensures TableName(name) == Some(g)
  {
    DecompositionIsSplit(p, g, []);
    assert name == p + "." + g + Suffix + [];
    var dot, end := |p|, |p| + 1 + |g|;
    assert forall d, e :: IsSplit(name, d, e) ==> d < dot || (d == dot && e <= end);
    var r := LongestSplit(name);
    assert r.Some?;
    assert r.value == (dot, end);
    assert name[dot + 1..end] == g;
  }

  /** Example: `proj.Users.backup_info` yields `Users`. */
  lemma ExampleDescriptor(name: string)
    requires name == "proj.Users.backup_info"
    ensures TableName(name) == Some("Users")
  {
    TableNameOfDescriptor(name, "proj", "Users");
  }

  /** `a.b.c.backup_info` yields `c`: the longest `P` wins. */
  lemma ExampleLongestPrefix(name: string)
    requires name == "a.b.c.backup_info"
    ensures TableName(name) == Some("c")
  {
    TableNameOfDescriptor(name, "a.b", "c");
  }

  /** `readme.txt` does not match, so the importer skips it. */
  lemma ExampleNoMatch(name: string)
    requires name == "readme.txt"
    ensures TableName(name) == None
  {
    assert |name| < 1 + 1 + |Suffix|;
  }
}
