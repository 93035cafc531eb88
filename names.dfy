/** A value that may be absent: `null` in the source. */
module Optional {
  datatype Option<T> = None | Some(value: T)
}

/** How a directory entry's name encodes a node id and a packer type
    (index.js:22-36 and 46-49). */
module Names {
  import opened Optional

  /** `s.lastIndexOf(c)`, with -1 as `None`. */
  function LastIndexOf(s: string, c: char): (r: Option<nat>)
    ensures r.None? <==> c !in s
    ensures r.Some? ==> r.value < |s| && s[r.value] == c && c !in s[r.value + 1..]
  {
    if s == [] then None
    else if s[|s| - 1] == c then Some(|s| - 1)
    else
      var r := LastIndexOf(s[..|s| - 1], c);
      assert s == s[..|s| - 1] + [s[|s| - 1]];
      if r.Some? then
        assert s[r.value + 1..] == s[..|s| - 1][r.value + 1..] + [s[|s| - 1]];
        r
      else r
  }

  /** The characters `String.prototype.trim` removes: ECMAScript WhiteSpace
      (tab, vertical tab, form feed, space, no-break space, byte order mark and
      the Unicode space separators) and LineTerminator. */
  predicate IsSpace(c: char)
  {
    || c == '\t' || c == '\n' || c == '\U{B}' || c == '\U{C}' || c == '\r'
    || c == ' ' || c == '\U{A0}' || c == '\U{1680}'
    || ('\U{2000}' <= c <= '\U{200A}')
    || c == '\U{2028}' || c == '\U{2029}' || c == '\U{202F}' || c == '\U{205F}'
    || c == '\U{3000}' || c == '\U{FEFF}'
  }

  /** `s.trim().length <= 0`. */
  predicate IsBlank(s: string)
  {
    forall i :: 0 <= i < |s| ==> IsSpace(s[i])
  }

  /** The id and packer type read off a directory entry's name. */
  datatype Parsed = Parsed(id: string, packerType: string)

  /** Splits `name` at its last `#`: what follows is the packer type, what
      precedes it the id, unless that is blank, in which case the id is the
      type. Without `#` the id is the whole name and the type is empty. The id
      is never trimmed. */
  function ParseName(name: string): (p: Parsed)
    ensures '#' !in name ==> p == Parsed(name, "")
    ensures '#' in name ==> |p.packerType| < |name|
    ensures '#' in name ==>
      var pre := name[..|name| - |p.packerType| - 1];
      && name == pre + "#" + p.packerType
      && '#' !in p.packerType
      && p.id == (if IsBlank(pre) then p.packerType else pre)
  {
    match LastIndexOf(name, '#')
    case None => Parsed(name, "")
    case Some(pos) =>
      var pre, packerType := name[..pos], name[pos + 1..];
      assert name == pre + "#" + packerType;
      Parsed(if IsBlank(pre) then packerType else pre, packerType)
  }

  /** Characters the extension pattern `[^/.]` accepts. */
  predicate ExtChar(c: char)
  {
    c != '/' && c != '.'
  }

  /** `s` is a dot followed by one or more characters that are neither `.`
      nor `/`: what `/\.[^/.]+$/` matches at the end of a string. */
  predicate IsExtension(s: string)
  {
    |s| >= 2 && s[0] == '.' && forall i :: 1 <= i < |s| ==> ExtChar(s[i])
  }

  /** `s.replace(/\.[^/.]+$/, '')`: the final extension is removed, if there
      is one. A suffix is removed exactly when it is an extension, and then
      the removed part starts at the last dot. */
  function StripExtension(s: string): (r: string)
    ensures |r| <= |s| && s[..|r|] == r
    ensures r != s ==> IsExtension(s[|r|..])
    ensures r == s ==> forall i :: 0 <= i < |s| ==> !IsExtension(s[i..])
  {
    match LastIndexOf(s, '.')
    case None =>
      NoDotNoExtension(s);
      s
    case Some(pos) =>
      if pos + 1 < |s| && '/' !in s[pos + 1..] then
        assert IsExtension(s[pos..]) by {
          forall i | 1 <= i < |s[pos..]| ensures ExtChar(s[pos..][i]) {
            assert s[pos..][i] == s[pos + 1..][i - 1];
          }
        }
        s[..pos]
      else
        LastDotNoExtension(s, pos);
        s
  }

  lemma NoDotNoExtension(s: string)
    requires '.' !in s
    ensures forall i :: 0 <= i < |s| ==> !IsExtension(s[i..])
  {
    forall i | 0 <= i < |s| ensures !IsExtension(s[i..]) {
      assert s[i..][0] == s[i];
    }
  }

  /** When the text after the last dot is empty or holds a `/`, no suffix is
      an extension: a suffix starting at an earlier dot contains the last dot,
      and one starting at the last dot is the rejected text. */
  lemma LastDotNoExtension(s: string, pos: nat)
    requires pos < |s| && s[pos] == '.' && '.' !in s[pos + 1..]
    requires !(pos + 1 < |s| && '/' !in s[pos + 1..])
    ensures forall i :: 0 <= i < |s| ==> !IsExtension(s[i..])
  {
    forall i | 0 <= i < |s| ensures !IsExtension(s[i..]) {
      if i < pos {
        assert s[i..][pos - i] == '.';
      } else if i == pos {
        if pos + 1 < |s| {
          var j :| 0 <= j < |s[pos + 1..]| && s[pos + 1..][j] == '/';
          assert s[i..][j + 1] == '/';
        }
      } else {
        assert s[i] in s[pos + 1..];
        assert s[i..][0] == s[i];
      }
    }
  }

  /** The id a file entry gets: the parsed id without its extension (the
      test at index.js:47 reads an undeclared `root`, taken here as always
      true, which is what its comment says). */
  function FileId(name: string): string
  {
    StripExtension(ParseName(name).id)
  }

  /** The id a directory entry gets: the parsed id as it is. */
  function DirId(name: string): string
  {
    ParseName(name).id
  }

  /** The position `lastIndexOf` reports is the only occurrence with no
      other occurrence after it. */
  lemma LastIndexOfIs(s: string, c: char, pos: nat)
    requires pos < |s| && s[pos] == c && c !in s[pos + 1..]
    ensures LastIndexOf(s, c) == Some(pos)
  {
  }

  /** Example of ParseName: the type follows the last `#`. */
  lemma SplitAtLastHash()
    ensures ParseName("icon.png#image") == Parsed("icon.png", "image")
  {
    var n := "icon.png#image";
    LastIndexOfIs(n, '#', 8);
    assert n[..8] == "icon.png" && n[9..] == "image";
    assert !IsBlank("icon.png") by { assert !IsSpace("icon.png"[0]); }
  }

  /** Example of ParseName: a blank id falls back to the type. */
  lemma BlankIdIsType()
    ensures ParseName(" #image") == Parsed("image", "image")
  {
    var b := " #image";
    LastIndexOfIs(b, '#', 1);
    assert b[..1] == " " && b[2..] == "image";
  }

  /** A non-blank id is kept as it is, spaces and earlier `#` included. */
  lemma IdKeptUntrimmed()
    ensures ParseName("a #b#c") == Parsed("a #b", "c")
  {
    var h := "a #b#c";
    LastIndexOfIs(h, '#', 4);
    assert h[..4] == "a #b" && h[5..] == "c";
    assert !IsBlank("a #b") by { assert !IsSpace("a #b"[0]); }
  }

  /** Example of StripExtension: only the final extension goes. */
  lemma StripLastExtension()
    ensures StripExtension("icon.png") == "icon"
    ensures StripExtension("archive.tar.gz") == "archive.tar"
  {
    StripAt("icon.png", 4);
    StripAt("archive.tar.gz", 11);
  }

  /** Example of StripExtension: a name that is all extension becomes empty. */
  lemma StripDotFile()
    ensures StripExtension(".gitignore") == ""
  {
    StripAt(".gitignore", 0);
  }

  /** Example of StripExtension: a trailing dot is no extension. */
  lemma StripTrailingDot()
    ensures StripExtension("trailing.") == "trailing."
  {
    LastIndexOfIs("trailing.", '.', 8);
  }

  lemma StripAt(s: string, pos: nat)
    requires pos + 1 < |s| && s[pos] == '.'
    requires forall i :: pos < i < |s| ==> ExtChar(s[i])
    ensures StripExtension(s) == s[..pos]
  {
    var tail := s[pos + 1..];
    assert '.' !in tail && '/' !in tail by {
      forall j | 0 <= j < |tail| ensures ExtChar(tail[j]) {
        assert tail[j] == s[pos + 1 + j];
      }
    }
    LastIndexOfIs(s, '.', pos);
  }

  /** Example of a file entry's id: the type suffix and then the extension
      removed. */
  lemma FileIdExample()
    ensures FileId("icon.png#image") == "icon"
  {
    SplitAtLastHash();
    StripLastExtension();
  }
}
