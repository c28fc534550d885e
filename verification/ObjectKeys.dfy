/** Object keys: path.Join(owner, id, sanitizeFilename(name)), with the cleaning of dot
    segments that path.Join performs. */
module ObjectKeys {
  import opened Text
  import Validation
  import PageTokens

  function Sanitize(name: string): string {
    var t := Trim(ReplaceAll(ReplaceAll(name, '\\', '_'), '/', '_'), IsSpace);
    if t == "" then "file" else t
  }

  /** Go's path.Clean on segments: empty and "." segments vanish, ".." cancels the segment
      before it, or stays when there is none to cancel in a relative path. */
  function Resolve(rooted: bool, segments: seq<string>, stack: seq<string>): seq<string> {
    if segments == [] then stack
    else
      var s := segments[0];
      var stack' :=
        if s == "" || s == "." then stack
        else if s == ".." then
          if stack != [] && stack[|stack| - 1] != ".." then stack[..|stack| - 1]
          else if rooted then stack
          else stack + [s]
        else stack + [s];
      Resolve(rooted, segments[1..], stack')
  }

  function JoinSegments(segments: seq<string>): string {
    if segments == [] then ""
    else if |segments| == 1 then segments[0]
    else segments[0] + "/" + JoinSegments(segments[1..])
  }

  function Clean(path: string): string {
    if path == "" then "."
    else
      var rooted := path[0] == '/';
      var out := (if rooted then "/" else "") + JoinSegments(Resolve(rooted, Split(path), []));
      if out == "" then "." else out
  }

  function NonEmpty(elements: seq<string>): seq<string> {
    if elements == [] then []
    else (if elements[0] == "" then [] else [elements[0]]) + NonEmpty(elements[1..])
  }

  function PathJoin(elements: seq<string>): string {
    var kept := NonEmpty(elements);
    if kept == [] then "" else Clean(JoinSegments(kept))
  }

  function ObjectKey(owner: string, id: string, name: string): string {
    PathJoin([owner, id, Sanitize(name)])
  }

  /** A segment that path cleaning leaves alone. */
  predicate Plain(s: string) {
    s != "" && s != "." && s != ".." && '/' !in s
  }

  predicate IsDots(s: string) {
    s == "." || s == ".."
  }

  /** The owner a key belongs to: its first segment. */
  function KeyOwner(key: string): string {
    Split(key)[0]
  }

  /** The sanitised name is usable as a path segment, and sanitising again changes nothing. */
  lemma SanitizeIsIdempotent(name: string)
    ensures Sanitize(name) != "" && '/' !in Sanitize(name) && '\\' !in Sanitize(name)
    ensures Trimmed(Sanitize(name), IsSpace)
    ensures Sanitize(Sanitize(name)) == Sanitize(name)
  {
    var once := ReplaceAll(ReplaceAll(name, '\\', '_'), '/', '_');
    TrimTrims(once, IsSpace);
    var s := Sanitize(name);
    assert '/' !in once && '\\' !in once;
    assert '/' !in s && '\\' !in s;
    assert ReplaceAll(ReplaceAll(s, '\\', '_'), '/', '_') == s;
    TrimFixesTrimmed(s, IsSpace);
  }

  /** The separators of the name are underscores in u, and m is u without the spaces at its ends. */
  predicate Cleans(name: string, u: string, a: string, m: string, d: string) {
    && |u| == |name|
    && (forall i | 0 <= i < |u| :: u[i] == if name[i] == '/' || name[i] == '\\' then '_' else name[i])
    && u == a + m + d && All(a, IsSpace) && All(d, IsSpace) && Trimmed(m, IsSpace)
  }

  lemma CleansIs(name: string, u: string, a: string, m: string, d: string)
    requires Cleans(name, u, a, m, d)
    ensures Sanitize(name) == if m == "" then "file" else m
  {
    assert u == ReplaceAll(ReplaceAll(name, '\\', '_'), '/', '_');
    TrimIsUnique(a, m, d, IsSpace);
  }

  /** The sanitised name is that text, or "file" when nothing of it is left. */
  lemma SanitizeIff(name: string, t: string)
    ensures Sanitize(name) == t <==>
            exists u, a, m, d :: Cleans(name, u, a, m, d) && t == if m == "" then "file" else m
  {
    if Sanitize(name) == t {
      var u := ReplaceAll(ReplaceAll(name, '\\', '_'), '/', '_');
      var a, d := TrimSplits(u, IsSpace);
      TrimTrims(u, IsSpace);
      assert Cleans(name, u, a, Trim(u, IsSpace), d);
    }
    if exists u, a, m, d :: Cleans(name, u, a, m, d) && t == if m == "" then "file" else m {
      var u, a, m, d :| Cleans(name, u, a, m, d) && t == if m == "" then "file" else m;
      CleansIs(name, u, a, m, d);
    }
  }

  lemma OwnerAndIdArePlain(owner: string, id: string)
    requires Validation.ValidOwner(owner) && PageTokens.IsCanonical(id)
    ensures Plain(owner) && Plain(id)
  {
    assert owner[0] in owner;
    if '/' in owner {
      assert false;
    }
    assert id[8] == '-';
    forall i | 0 <= i < |id| ensures id[i] != '/' {
      assert if PageTokens.IsDash(i) then id[i] == '-' else PageTokens.IsLowerHex(id[i]);
    }
  }

  /** What cleaning makes of owner/id/name, dot names included. */
  function CleanedSegments(owner: string, id: string, name: string): seq<string> {
    if name == "." then [owner, id]
    else if name == ".." then [owner]
    else [owner, id, name]
  }

  lemma ResolveThree(a: string, b: string, c: string)
    requires Plain(a) && Plain(b) && c != "" && '/' !in c
    ensures Resolve(false, [a, b, c], []) == CleanedSegments(a, b, c)
  {
    assert [a, b, c][1..] == [b, c] && [b, c][1..] == [c] && [c][1..] == [];
    assert [] + [a] == [a] && [a] + [b] == [a, b] && [a, b] + [c] == [a, b, c];
    assert [a, b][..1] == [a];
    assert Resolve(false, [a, b, c], []) == Resolve(false, [b, c], [a]);
    assert Resolve(false, [b, c], [a]) == Resolve(false, [c], [a, b]);
  }

  lemma SplitThree(a: string, b: string, c: string)
    requires '/' !in a && '/' !in b && '/' !in c
    ensures Split(a + "/" + b + "/" + c) == [a, b, c]
  {
    SplitSegment(a, b + "/" + c);
    SplitSegment(b, c);
    SplitSegment(c, "");
    assert a + "/" + b + "/" + c == a + "/" + (b + "/" + c);
  }

  lemma JoinTwo(a: string, b: string)
    ensures JoinSegments([a, b]) == a + "/" + b
  {
    assert [a, b][1..] == [b];
  }

  lemma JoinThree(a: string, b: string, c: string)
    ensures JoinSegments([a, b, c]) == a + "/" + (b + "/" + c) == a + "/" + b + "/" + c
  {
    assert [a, b, c][1..] == [b, c];
    JoinTwo(b, c);
  }

  lemma SplitCleaned(a: string, b: string, c: string)
    requires Plain(a) && Plain(b) && '/' !in c
    ensures Split(JoinSegments(CleanedSegments(a, b, c))) == CleanedSegments(a, b, c)
    ensures JoinSegments(CleanedSegments(a, b, c)) != ""
  {
    JoinTwo(a, b);
    JoinThree(a, b, c);
    SplitThree(a, b, c);
    SplitSegment(a, b);
    SplitSegment(b, "");
  }

  lemma NonEmptyThree(a: string, b: string, c: string)
    requires a != "" && b != "" && c != ""
    ensures NonEmpty([a, b, c]) == [a, b, c]
  {
    assert [a, b, c][1..] == [b, c] && [b, c][1..] == [c] && [c][1..] == [];
    assert NonEmpty([c]) == [c];
    assert NonEmpty([b, c]) == [b, c];
  }

  /** The stored key of any accepted upload, segment by segment. */
  lemma KeySegments(owner: string, id: string, name: string)
    requires Validation.ValidOwner(owner) && PageTokens.IsCanonical(id)
    ensures Split(ObjectKey(owner, id, name)) == CleanedSegments(owner, id, Sanitize(name))
    ensures ObjectKey(owner, id, name) == JoinSegments(CleanedSegments(owner, id, Sanitize(name)))
    ensures KeyOwner(ObjectKey(owner, id, name)) == owner
  {
    var s := Sanitize(name);
    SanitizeIsIdempotent(name);
    OwnerAndIdArePlain(owner, id);
    NonEmptyThree(owner, id, s);
    JoinThree(owner, id, s);
    SplitThree(owner, id, s);
    ResolveThree(owner, id, s);
    SplitCleaned(owner, id, s);
    var path := owner + "/" + id + "/" + s;
    assert path[0] == owner[0];
    assert "" + JoinSegments(Resolve(false, Split(path), [])) == JoinSegments(CleanedSegments(owner, id, s));
  }

  /** The key is owner/id/name exactly when the sanitised name is not a dot segment. */
  lemma KeyShapeIff(owner: string, id: string, name: string)
    requires Validation.ValidOwner(owner) && PageTokens.IsCanonical(id)
    ensures ObjectKey(owner, id, name) == owner + "/" + id + "/" + Sanitize(name)
            <==> !IsDots(Sanitize(name))
  {
    var s := Sanitize(name);
    KeySegments(owner, id, name);
    JoinThree(owner, id, s);
    if IsDots(s) {
      JoinTwo(owner, id);
      assert |ObjectKey(owner, id, name)| < |owner + "/" + id + "/" + s|;
    }
  }

  /** Exactly when two accepted uploads share a key: same owner, and either the same id and
      name, or the same id and both names ".", or both names "..". */
  lemma KeysCollideIff(o1: string, id1: string, n1: string, o2: string, id2: string, n2: string)
    requires Validation.ValidOwner(o1) && PageTokens.IsCanonical(id1)
    requires Validation.ValidOwner(o2) && PageTokens.IsCanonical(id2)
    ensures ObjectKey(o1, id1, n1) == ObjectKey(o2, id2, n2) <==>
            o1 == o2 && Sanitize(n1) == Sanitize(n2) && (id1 == id2 || Sanitize(n1) == "..")
  {
    KeySegments(o1, id1, n1);
    KeySegments(o2, id2, n2);
    var a := CleanedSegments(o1, id1, Sanitize(n1));
    var b := CleanedSegments(o2, id2, Sanitize(n2));
    if ObjectKey(o1, id1, n1) == ObjectKey(o2, id2, n2) {
      assert a == b;
      assert a[0] == b[0] && |a| == |b|;
      if |a| >= 2 { assert a[1] == b[1]; }
      if |a| == 3 { assert a[2] == b[2]; }
    }
  }

  lemma SanitizeKeepsDots()
    ensures Sanitize("..") == ".." && Sanitize(".") == "."
  {
    assert ReplaceAll(ReplaceAll("..", '\\', '_'), '/', '_') == "..";
    assert ReplaceAll(ReplaceAll(".", '\\', '_'), '/', '_') == ".";
    TrimFixesTrimmed("..", IsSpace);
    TrimFixesTrimmed(".", IsSpace);
  }

  /** Two accepted uploads named ".." share a key whatever their ids: it is the owner alone. */
  lemma DotsShareKey(owner: string, id1: string, id2: string)
    requires Validation.ValidOwner(owner) && PageTokens.IsCanonical(id1) && PageTokens.IsCanonical(id2)
    ensures ObjectKey(owner, id1, "..") == ObjectKey(owner, id2, "..") == owner
  {
    SanitizeKeepsDots();
    KeysCollideIff(owner, id1, "..", owner, id2, "..");
    KeySegments(owner, id1, "..");
    assert [owner][1..] == [];
  }

  lemma DotsAreAccepted()
    ensures Validation.ValidCreate("owner", "..", "a/b", 1, 0)
  {
    Validation.PlainContentType();
  }

  /** Such uploads exist, with different ids. */
  lemma AcceptedKeysCollide()
    ensures var a, b := PageTokens.Repdigit('0'), PageTokens.Repdigit('1');
            && PageTokens.IsCanonical(a) && PageTokens.IsCanonical(b) && a != b
            && Validation.ValidCreate("owner", "..", "a/b", 1, 0)
            && ObjectKey("owner", a, "..") == ObjectKey("owner", b, "..")
  {
    PageTokens.RepdigitIsCanonical('0');
    PageTokens.RepdigitIsCanonical('1');
    assert PageTokens.Repdigit('0')[0] != PageTokens.Repdigit('1')[0];
    DotsAreAccepted();
    DotsShareKey("owner", PageTokens.Repdigit('0'), PageTokens.Repdigit('1'));
  }
}
