/** The image window: splitting a drag-and-drop payload into file paths,
    keeping the ones that name images, and placing each stored image on a
    grid of thumbnails `ThumbWidth` pixels wide. File existence, whether an
    image decodes, and the frame width come in as an `Env`. */
module DragDrop {
  import opened Strings

  /** Python's whitespace: what `\s` matches in a `str` pattern and what
      `str.split()` splits on. */
  predicate IsSpace(c: char)
  {
    var n := c as int;
    || 0x09 <= n <= 0x0D || 0x1C <= n <= 0x20 || n == 0x85 || n == 0xA0 || n == 0x1680
    || 0x2000 <= n <= 0x200A || n == 0x2028 || n == 0x2029 || n == 0x202F || n == 0x205F || n == 0x3000
  }

  predicate IsBrace(c: char)
  {
    c == '{' || c == '}'
  }

  // ---------------------------------------------------------------------
  // Tokenising: the pattern `\{[^}]+\}|[^\s\{]+`, scanned left to right

  /** Position of the first `}` in `s`, or `|s|` when there is none. */
  function FirstClose(s: string): (k: nat)
    ensures k <= |s|
    ensures k < |s| ==> s[k] == '}'
    ensures forall j :: 0 <= j < k ==> s[j] != '}'
  {
    if s == [] || s[0] == '}' then 0 else 1 + FirstClose(s[1..])
  }

  /** Length of the brace group `\{[^}]+\}` that starts `s`, or 0 when the
      first alternative does not match there. */
  function GroupLength(s: string): nat
  {
    if |s| > 0 && s[0] == '{' then
      var close := 1 + FirstClose(s[1..]);
      if 2 <= close < |s| then close + 1 else 0
    else 0
  }

  /** Length of the longest run `[^\s\{]+` that starts `s` (0 if none). */
  function RunLength(s: string): (n: nat)
    ensures n <= |s|
    ensures forall j :: 0 <= j < n ==> !IsSpace(s[j]) && s[j] != '{'
    ensures n < |s| ==> IsSpace(s[n]) || s[n] == '{'
  {
    if s == [] || IsSpace(s[0]) || s[0] == '{' then 0 else 1 + RunLength(s[1..])
  }

  /** A token of the first alternative: braces around at least one
      character, none of them `}`. */
  predicate IsGroup(t: string)
  {
    && |t| >= 3 && t[0] == '{' && t[|t| - 1] == '}'
    && forall j :: 0 < j < |t| - 1 ==> t[j] != '}'
  }

  /** A token of the second alternative: no whitespace and no `{`. */
  predicate IsRun(t: string)
  {
    |t| >= 1 && forall j :: 0 <= j < |t| ==> !IsSpace(t[j]) && t[j] != '{'
  }

  lemma GroupShape(s: string)
    requires GroupLength(s) > 0
    ensures GroupLength(s) <= |s| && IsGroup(s[..GroupLength(s)])
  {
    var k := FirstClose(s[1..]);
    var t := s[..GroupLength(s)];
    forall j | 0 < j < |t| - 1
      ensures t[j] != '}'
    {
      assert t[j] == s[1..][j - 1];
    }
  }

  /** `re.findall`: at each position try a brace group, then a run; skip
      one character when neither matches. */
  function FindAll(s: string): (tokens: seq<string>)
    ensures forall t :: t in tokens ==> IsGroup(t) || IsRun(t)
    decreases |s|
  {
    if s == [] then []
    else if GroupLength(s) > 0 then
      GroupShape(s);
      [s[..GroupLength(s)]] + FindAll(s[GroupLength(s)..])
    else if RunLength(s) > 0 then
      [s[..RunLength(s)]] + FindAll(s[RunLength(s)..])
    else FindAll(s[1..])
  }

  /** Length of the run of non-whitespace that starts `s`. */
  function WordLength(s: string): (n: nat)
    ensures n <= |s|
    ensures forall j :: 0 <= j < n ==> !IsSpace(s[j])
  {
    if s == [] || IsSpace(s[0]) then 0 else 1 + WordLength(s[1..])
  }

  /** `str.split()` with no separator: the maximal runs of non-whitespace. */
  function Split(s: string): (words: seq<string>)
    ensures forall w :: w in words ==> |w| >= 1 && forall j :: 0 <= j < |w| ==> !IsSpace(w[j])
    decreases |s|
  {
    if s == [] then []
    else if IsSpace(s[0]) then Split(s[1..])
    else
      var n := WordLength(s);
      [s[..n]] + Split(s[n..])
  }

  /** A token of the fallback split when the pattern found nothing: only
      `{` characters. */
  predicate IsOpenRun(t: string)
  {
    |t| >= 1 && forall j :: 0 <= j < |t| ==> t[j] == '{'
  }

  /** `extract_file_paths`: the pattern's matches, or the whitespace split
      of the payload when there are none. */
  function Tokenize(data: string): (tokens: seq<string>)
    ensures forall t :: t in tokens ==> IsGroup(t) || IsRun(t) || IsOpenRun(t)
  {
    var found := FindAll(data);
    if found != [] then found
    else
      FindAllEmpty(data);
      SplitOfOpenBraces(data);
      Split(data)
  }

  /** The pattern finds nothing exactly when every character is whitespace
      or `{`. */
  lemma {:induction false} FindAllEmpty(s: string)
    ensures FindAll(s) == [] <==> forall i :: 0 <= i < |s| ==> IsSpace(s[i]) || s[i] == '{'
    decreases |s|
  {
    if s != [] {
      if GroupLength(s) > 0 {
        assert !IsSpace(s[FirstClose(s[1..]) + 1]);
      } else if RunLength(s) == 0 {
        FindAllEmpty(s[1..]);
        forall i | 0 <= i < |s[1..]|
          ensures s[1..][i] == s[i + 1]
        {
        }
      }
    }
  }

  /** When the payload is only whitespace and `{`, the fallback words are
      runs of `{`. */
  lemma {:induction false} SplitOfOpenBraces(s: string)
    requires forall i :: 0 <= i < |s| ==> IsSpace(s[i]) || s[i] == '{'
    ensures forall w :: w in Split(s) ==> IsOpenRun(w)
    decreases |s|
  {
    if s != [] {
      if IsSpace(s[0]) {
        SplitOfOpenBraces(s[1..]);
      } else {
        var n := WordLength(s);
        SplitOfOpenBraces(s[n..]);
      }
    }
  }

  /** The split is empty exactly when the string is all whitespace. */
  lemma {:induction false} SplitEmpty(s: string)
    ensures Split(s) == [] <==> forall i :: 0 <= i < |s| ==> IsSpace(s[i])
    decreases |s|
  {
    if s != [] && IsSpace(s[0]) {
      SplitEmpty(s[1..]);
      forall i | 0 <= i < |s[1..]|
        ensures s[1..][i] == s[i + 1]
      {
      }
    }
  }

  /** No paths are extracted exactly when the payload is empty or all
      whitespace. */
  lemma TokenizeEmpty(data: string)
    ensures Tokenize(data) == [] <==> forall i :: 0 <= i < |data| ==> IsSpace(data[i])
  {
    FindAllEmpty(data);
    SplitEmpty(data);
  }

  /** A brace group with at least one character inside and no `}` inside is
      one token, braces and inner spaces included. */
  lemma FindAllGroup(inner: string, rest: string)
    requires inner != [] && forall j :: 0 <= j < |inner| ==> inner[j] != '}'
    ensures FindAll("{" + inner + "}" + rest) == ["{" + inner + "}"] + FindAll(rest)
  {
    var s := "{" + inner + "}" + rest;
    var group := "{" + inner + "}";
    assert s[1..] == inner + "}" + rest;
    CloseAfter(inner, "}" + rest);
    assert s[1..] == inner + ("}" + rest);
    assert GroupLength(s) == |group|;
    assert s[..|group|] == group;
    assert s[|group|..] == rest;
  }

  /** The first `}` after a stretch without one is where that stretch ends. */
  lemma {:induction false} CloseAfter(a: string, b: string)
    requires forall j :: 0 <= j < |a| ==> a[j] != '}'
    requires b != [] && b[0] == '}'
    ensures FirstClose(a + b) == |a|
    decreases |a|
  {
    if a != [] {
      assert (a + b)[1..] == a[1..] + b;
      CloseAfter(a[1..], b);
    } else {
      assert a + b == b;
    }
  }

  /** A run followed by whitespace (or the end) is one token. */
  lemma FindAllRun(word: string, rest: string)
    requires IsRun(word)
    requires rest == [] || IsSpace(rest[0])
    ensures FindAll(word + rest) == [word] + FindAll(rest)
  {
    var s := word + rest;
    RunAfter(word, rest);
    assert s[..|word|] == word;
    assert s[|word|..] == rest;
  }

  lemma {:induction false} RunAfter(word: string, rest: string)
    requires forall j :: 0 <= j < |word| ==> !IsSpace(word[j]) && word[j] != '{'
    requires rest == [] || IsSpace(rest[0])
    ensures RunLength(word + rest) == |word|
    decreases |word|
  {
    if word != [] {
      assert (word + rest)[1..] == word[1..] + rest;
      RunAfter(word[1..], rest);
    } else {
      assert word + rest == rest;
    }
  }

  /** Whitespace between tokens is skipped. */
  lemma FindAllSpace(c: char, rest: string)
    requires IsSpace(c)
    ensures FindAll([c] + rest) == FindAll(rest)
  {
    assert ([c] + rest)[1..] == rest;
  }

  // ---------------------------------------------------------------------
  // Stripping and filtering

  /** `lstrip('{}')` */
  function TrimStart(s: string): (r: string)
    ensures |r| <= |s| && r == s[|s| - |r|..]
    ensures forall j :: 0 <= j < |s| - |r| ==> IsBrace(s[j])
    ensures r == [] || !IsBrace(r[0])
  {
    if s != [] && IsBrace(s[0]) then TrimStart(s[1..]) else s
  }

  /** `rstrip('{}')` */
  function TrimEnd(s: string): (r: string)
    ensures |r| <= |s| && r == s[..|r|]
    ensures forall j :: |r| <= j < |s| ==> IsBrace(s[j])
    ensures r == [] || !IsBrace(r[|r| - 1])
  {
    if s != [] && IsBrace(s[|s| - 1]) then TrimEnd(s[..|s| - 1]) else s
  }

  /** `strip('{}')`: the token with every leading and trailing brace removed. */
  function StripBraces(s: string): (r: string)
    ensures r == [] || (!IsBrace(r[0]) && !IsBrace(r[|r| - 1]))
    ensures exists i :: 0 <= i <= |s| && r <= s[i..]
              && (forall j :: 0 <= j < i ==> IsBrace(s[j]))
              && (forall j :: i + |r| <= j < |s| ==> IsBrace(s[j]))
  {
    var t := TrimStart(s);
    var r := TrimEnd(t);
    assert t == s[|s| - |t|..];
    r
  }

  /** A path with no brace at either end is left as it is. */
  lemma StripUnbraced(p: string)
    requires p == [] || (!IsBrace(p[0]) && !IsBrace(p[|p| - 1]))
    ensures StripBraces(p) == p
  {
  }

  /** Stripping twice removes nothing more. */
  lemma StripIdempotent(s: string)
    ensures StripBraces(StripBraces(s)) == StripBraces(s)
  {
    StripUnbraced(StripBraces(s));
  }

  /** Stripping a brace group gives back what was inside, when the inside
      neither starts nor ends with a brace. */
  lemma StripGroup(p: string)
    requires p != [] && !IsBrace(p[0]) && !IsBrace(p[|p| - 1])
    ensures StripBraces("{" + p + "}") == p
  {
    var s := "{" + p + "}";
    assert s[1..] == p + "}";
    assert TrimStart(s[1..]) == p + "}";
    assert TrimStart(s) == p + "}";
    assert (p + "}")[..|p|] == p;
    assert TrimEnd(p + "}") == TrimEnd(p);
  }

  const ImageExtensions: seq<string> := [".png", ".jpg", ".jpeg", ".bmp", ".gif"]

  /** `path.lower().endswith(('.png', '.jpg', '.jpeg', '.bmp', '.gif'))` */
  predicate IsImagePath(path: string)
  {
    EndsWithAny(Lower(path), ImageExtensions)
  }

  /** The extension test ignores letter case. */
  lemma ImagePathIgnoresCase(path: string)
    ensures IsImagePath(path) <==> IsImagePath(Lower(path))
  {
    LowerIdempotent(path);
  }

  /** An accepted path is at least four characters long, and the dot of its
      extension is the fourth or fifth character from its end. */
  lemma ImagePathExtension(path: string)
    requires IsImagePath(path)
    ensures |path| >= 4
    ensures exists d :: 0 <= d < |path| && |path| - 5 <= d <= |path| - 4 && Lower(path)[d] == '.'
  {
    var lower := Lower(path);
    EndsWithAnyAt(lower, ImageExtensions);
    var k :| 0 <= k < |ImageExtensions| && EndsWith(lower, ImageExtensions[k]);
    var ext := ImageExtensions[k];
    assert ext[0] == '.' && 4 <= |ext| <= 5;
    var d := |lower| - |ext|;
    assert lower[d..][0] == lower[d];
  }

  /** The paths the drop handler passes on: each token stripped, kept when
      it names an image, in token order. */
  function Accepted(tokens: seq<string>): (paths: seq<string>)
    ensures |paths| <= |tokens|
    ensures forall p :: p in paths ==> IsImagePath(p)
  {
    if tokens == [] then []
    else
      var p := StripBraces(tokens[|tokens| - 1]);
      Accepted(tokens[..|tokens| - 1]) + if IsImagePath(p) then [p] else []
  }

  /** The paths that exist, in order. */
  function Existing(paths: seq<string>, existing: set<string>): (kept: seq<string>)
    ensures |kept| <= |paths|
    ensures forall p :: p in kept ==> p in existing
  {
    if paths == [] then []
    else
      var p := paths[|paths| - 1];
      Existing(paths[..|paths| - 1], existing) + if p in existing then [p] else []
  }

  // ---------------------------------------------------------------------
  // Thumbnail grid

  const ThumbWidth: nat := 200

  /** `frame_width // image_width` */
  function Columns(frameWidth: nat): nat
  {
    frameWidth / ThumbWidth
  }

  /** Grid cell of the i-th image, `(i // c, i % c)`. */
  function GridCell(i: nat, c: nat): (cell: (nat, nat))
    requires c > 0
    ensures cell.1 < c
    ensures cell.0 * c + cell.1 == i
  {
    (i / c, i % c)
  }

  /** In one grid of `c` columns, distinct images get distinct cells. */
  lemma GridCellInjective(i: nat, j: nat, c: nat)
    requires c > 0 && i != j
    ensures GridCell(i, c) != GridCell(j, c)
  {
    var a, b := GridCell(i, c), GridCell(j, c);
    assert a.0 * c + a.1 == i && b.0 * c + b.1 == j;
  }

  /** The column count is recomputed for every image, so cells from grids of
      different widths can coincide: image c placed with c columns and
      image c + 1 placed after a widening to c + 1 columns both go to the
      first cell of the second row. */
  lemma ResizeOverlap(c: nat)
    requires c > 0
    ensures GridCell(c, c) == GridCell(c + 1, c + 1) == (1, 0)
  {
    assert c / c == 1 && c % c == 0;
    assert (c + 1) / (c + 1) == 1 && (c + 1) % (c + 1) == 0;
  }

  // ---------------------------------------------------------------------
  // Window state and its transitions

  /** Text of the drop label. */
  datatype Label =
    | Prompt                       // the initial invitation to drop images
    | ExtractFailed                // no paths found in the payload
    | NotAnImage(path: string)     // a stripped path without an image extension
    | NoSuchFile(path: string)     // an image path that does not exist
    | LoadError                    // decoding failed, or the grid has no column

  /** A thumbnail placed on the grid for the image stored at `index`. */
  datatype Thumb = Thumb(index: nat, row: nat, col: nat)

  /** What the window looks at: the files that exist, the ones that decode
      as images, and the current width of the thumbnail frame. */
  datatype Env = Env(existing: set<string>, decodable: set<string>, frameWidth: nat)

  /** The stored image paths, the label text and the placed thumbnails. */
  datatype AppState = AppState(images: seq<string>, message: Label, thumbs: seq<Thumb>)

  /** Thumbnails belong to stored images, one per image at most, in order. */
  ghost predicate WellPlaced(s: AppState)
  {
    && (forall k :: 0 <= k < |s.thumbs| ==> s.thumbs[k].index < |s.images|)
    && (forall k, l :: 0 <= k < l < |s.thumbs| ==> s.thumbs[k].index < s.thumbs[l].index)
  }

  /** `display_image(path)`: a missing file only changes the label; an
      existing one is stored first, then decoded and placed at the cell of
      its index. A decoding failure, or a frame narrower than one thumbnail
      (the zero division), is reported on the label after the path is
      already stored. */
  function Display(s: AppState, path: string, env: Env): AppState
  {
    if path !in env.existing then s.(message := NoSuchFile(path))
    else
      var images := s.images + [path];
      var i := |images| - 1;
      var c := Columns(env.frameWidth);
      if path !in env.decodable || c == 0 then AppState(images, LoadError, s.thumbs)
      else
        var cell := GridCell(i, c);
        AppState(images, s.message, s.thumbs + [Thumb(i, cell.0, cell.1)])
  }

  /** One iteration of the drop loop. */
  function DropToken(s: AppState, token: string, env: Env): AppState
  {
    var path := StripBraces(token);
    if IsImagePath(path) then Display(s, path, env) else s.(message := NotAnImage(path))
  }

  /** The drop loop over the first |tokens| tokens. */
  function DropTokens(s: AppState, tokens: seq<string>, env: Env): AppState
  {
    if tokens == [] then s
    else DropToken(DropTokens(s, tokens[..|tokens| - 1], env), tokens[|tokens| - 1], env)
  }

  /** `on_drop(data)` */
  function Drop(s: AppState, data: string, env: Env): AppState
  {
    var tokens := Tokenize(data);
    if tokens == [] then s.(message := ExtractFailed) else DropTokens(s, tokens, env)
  }

  /** Displaying keeps thumbnails well placed; a new thumbnail is the image
      just stored, at its cell, and it appears only when the grid has a
      column. */
  lemma DisplayFacts(s: AppState, path: string, env: Env)
    requires WellPlaced(s)
    ensures var s' := Display(s, path, env);
            var c := Columns(env.frameWidth);
            && WellPlaced(s')
            && s'.images == s.images + (if path in env.existing then [path] else [])
            && (if path in env.existing && path in env.decodable && c > 0
                then s'.thumbs == s.thumbs + [Thumb(|s.images|, |s.images| / c, |s.images| % c)]
                else s'.thumbs == s.thumbs)
  {
  }

  /** The images stored by a drop are the accepted paths that exist, in
      token order, after the ones stored before. */
  lemma {:induction false} DropTokensImages(s: AppState, tokens: seq<string>, env: Env)
    ensures DropTokens(s, tokens, env).images == s.images + Existing(Accepted(tokens), env.existing)
  {
    if tokens != [] {
      var init := tokens[..|tokens| - 1];
      var token := tokens[|tokens| - 1];
      var path := StripBraces(token);
      var mid := DropTokens(s, init, env);
      var before := Existing(Accepted(init), env.existing);
      DropTokensImages(s, init, env);
      assert mid.images == s.images + before;
      assert DropTokens(s, tokens, env) == DropToken(mid, token, env);
      if IsImagePath(path) {
        var added := if path in env.existing then [path] else [];
        assert Accepted(tokens) == Accepted(init) + [path];
        ExistingSnoc(Accepted(init), path, env.existing);
        assert Existing(Accepted(tokens), env.existing) == before + added;
        DisplayImages(mid, path, env);
        assert DropToken(mid, token, env).images == (s.images + before) + added;
      } else {
        assert Accepted(tokens) == Accepted(init);
        assert DropToken(mid, token, env).images == mid.images;
      }
    }
  }

  lemma DisplayImages(s: AppState, path: string, env: Env)
    ensures Display(s, path, env).images == s.images + if path in env.existing then [path] else []
  {
  }

  lemma ExistingSnoc(paths: seq<string>, p: string, existing: set<string>)
    ensures Existing(paths + [p], existing) == Existing(paths, existing) + if p in existing then [p] else []
  {
    assert (paths + [p])[..|paths|] == paths;
  }

  /** `later` extends `earlier`: images and thumbnails are only appended,
      and each added thumbnail shows an added image at the cell of its index
      in a grid of `c` columns, so none is added when `c` is 0. */
  ghost predicate Extends(earlier: AppState, later: AppState, c: nat)
  {
    && |earlier.images| <= |later.images| && later.images[..|earlier.images|] == earlier.images
    && |earlier.thumbs| <= |later.thumbs| && later.thumbs[..|earlier.thumbs|] == earlier.thumbs
    && (c == 0 ==> later.thumbs == earlier.thumbs)
    && forall k :: |earlier.thumbs| <= k < |later.thumbs| ==>
         && c > 0
         && |earlier.images| <= later.thumbs[k].index < |later.images|
         && (later.thumbs[k].row, later.thumbs[k].col) == GridCell(later.thumbs[k].index, c)
  }

  lemma ExtendsTransitive(a: AppState, b: AppState, d: AppState, c: nat)
    requires Extends(a, b, c) && Extends(b, d, c)
    ensures Extends(a, d, c)
  {
    assert d.images[..|a.images|] == d.images[..|b.images|][..|a.images|];
    assert d.thumbs[..|a.thumbs|] == d.thumbs[..|b.thumbs|][..|a.thumbs|];
    forall k | |a.thumbs| <= k < |d.thumbs|
      ensures c > 0 && |a.images| <= d.thumbs[k].index < |d.images|
    {
      if k < |b.thumbs| {
        assert d.thumbs[k] == b.thumbs[k];
      }
    }
  }

  lemma DisplayExtends(s: AppState, path: string, env: Env)
    requires WellPlaced(s)
    ensures WellPlaced(Display(s, path, env))
    ensures Extends(s, Display(s, path, env), Columns(env.frameWidth))
  {
    DisplayFacts(s, path, env);
    var s' := Display(s, path, env);
    assert s'.images[..|s.images|] == s.images;
    assert s'.thumbs[..|s.thumbs|] == s.thumbs;
  }

  /** Changing only the label extends a state trivially. */
  lemma RelabelExtends(s: AppState, m: Label, c: nat)
    requires WellPlaced(s)
    ensures WellPlaced(s.(message := m)) && Extends(s, s.(message := m), c)
  {
    assert s.images[..|s.images|] == s.images;
    assert s.thumbs[..|s.thumbs|] == s.thumbs;
  }

  lemma DropTokenExtends(s: AppState, token: string, env: Env)
    requires WellPlaced(s)
    ensures WellPlaced(DropToken(s, token, env))
    ensures Extends(s, DropToken(s, token, env), Columns(env.frameWidth))
  {
    var path := StripBraces(token);
    if IsImagePath(path) {
      assert DropToken(s, token, env) == Display(s, path, env);
      DisplayExtends(s, path, env);
    } else {
      assert DropToken(s, token, env) == s.(message := NotAnImage(path));
      RelabelExtends(s, NotAnImage(path), Columns(env.frameWidth));
    }
  }

  /** Thumbnails added by a drop come after the earlier ones; each shows an
      image stored by this drop, at the cell of its index; and none is added
      when the frame is narrower than one thumbnail. */
  lemma {:induction false} DropTokensThumbs(s: AppState, tokens: seq<string>, env: Env)
    requires WellPlaced(s)
    ensures WellPlaced(DropTokens(s, tokens, env))
    ensures Extends(s, DropTokens(s, tokens, env), Columns(env.frameWidth))
  {
    var c := Columns(env.frameWidth);
    if tokens == [] {
      assert s.images[..|s.images|] == s.images;
      assert s.thumbs[..|s.thumbs|] == s.thumbs;
    } else {
      var init := tokens[..|tokens| - 1];
      DropTokensThumbs(s, init, env);
      var mid := DropTokens(s, init, env);
      DropTokenExtends(mid, tokens[|tokens| - 1], env);
      ExtendsTransitive(s, mid, DropTokens(s, tokens, env), c);
    }
  }

  /** What `on_drop` stores: the accepted, existing paths of the payload
      after the earlier images, with thumbnails still well placed. */
  lemma DropImages(s: AppState, data: string, env: Env)
    requires WellPlaced(s)
    ensures Drop(s, data, env).images == s.images + Existing(Accepted(Tokenize(data)), env.existing)
    ensures WellPlaced(Drop(s, data, env))
    ensures Extends(s, Drop(s, data, env), Columns(env.frameWidth))
  {
    var tokens := Tokenize(data);
    if tokens == [] {
      RelabelExtends(s, ExtractFailed, Columns(env.frameWidth));
    } else {
      DropTokensImages(s, tokens, env);
      DropTokensThumbs(s, tokens, env);
    }
  }

  /** `choose_files`: every chosen path is displayed in turn. */
  function DisplayAll(s: AppState, paths: seq<string>, env: Env): AppState
  {
    if paths == [] then s
    else Display(DisplayAll(s, paths[..|paths| - 1], env), paths[|paths| - 1], env)
  }

  /** Choosing files stores the chosen paths that exist, in order, and keeps
      thumbnails well placed. */
  lemma {:induction false} DisplayAllImages(s: AppState, paths: seq<string>, env: Env)
    requires WellPlaced(s)
    ensures DisplayAll(s, paths, env).images == s.images + Existing(paths, env.existing)
    ensures WellPlaced(DisplayAll(s, paths, env))
    ensures Extends(s, DisplayAll(s, paths, env), Columns(env.frameWidth))
  {
    if paths == [] {
      assert s.images[..|s.images|] == s.images;
      assert s.thumbs[..|s.thumbs|] == s.thumbs;
    } else {
      var init := paths[..|paths| - 1];
      DisplayAllImages(s, init, env);
      var mid := DisplayAll(s, init, env);
      DisplayImages(mid, paths[|paths| - 1], env);
      DisplayExtends(mid, paths[|paths| - 1], env);
      ExtendsTransitive(s, mid, DisplayAll(s, paths, env), Columns(env.frameWidth));
    }
  }

  lemma DropTokensSnoc(s: AppState, tokens: seq<string>, k: nat, env: Env)
    requires k < |tokens|
    ensures DropTokens(s, tokens[..k + 1], env) == DropToken(DropTokens(s, tokens[..k], env), tokens[k], env)
  {
    assert tokens[..k + 1][..k] == tokens[..k];
  }

  lemma DisplayAllSnoc(s: AppState, paths: seq<string>, k: nat, env: Env)
    requires k < |paths|
    ensures DisplayAll(s, paths[..k + 1], env) == Display(DisplayAll(s, paths[..k], env), paths[k], env)
  {
    assert paths[..k + 1][..k] == paths[..k];
  }

  /** An empty or all-whitespace payload only reports the failure. */
  lemma DropNothing(s: AppState, data: string, env: Env)
    requires forall i :: 0 <= i < |data| ==> IsSpace(data[i])
    ensures Drop(s, data, env) == s.(message := ExtractFailed)
  {
    TokenizeEmpty(data);
  }

  // ---------------------------------------------------------------------
  // Round trip with the drop payload

  predicate HasSpace(p: string)
  {
    exists j :: 0 <= j < |p| && IsSpace(p[j])
  }

  /** How a drop source lists one path: wrapped in braces when it contains
      whitespace. */
  function EncodePath(p: string): string
  {
    if HasSpace(p) then "{" + p + "}" else p
  }

  function EncodePaths(paths: seq<string>): (r: seq<string>)
    ensures |r| == |paths|
  {
    if paths == [] then [] else [EncodePath(paths[0])] + EncodePaths(paths[1..])
  }

  /** A drop payload: the encoded paths separated by single spaces. */
  function Payload(paths: seq<string>): string
  {
    Join(EncodePaths(paths), " ")
  }

  /** A path the round trip covers: non-empty and free of braces. */
  predicate PlainPath(p: string)
  {
    p != [] && forall j :: 0 <= j < |p| ==> !IsBrace(p[j])
  }

  /** Tokenising a payload gives back one token per path; stripping each
      token gives back the path. */
  lemma {:induction false} PayloadRoundTrip(paths: seq<string>)
    requires forall i :: 0 <= i < |paths| ==> PlainPath(paths[i])
    ensures Tokenize(Payload(paths)) == EncodePaths(paths)
    ensures forall i :: 0 <= i < |paths| ==> StripBraces(Tokenize(Payload(paths))[i]) == paths[i]
  {
    FindAllPayload(paths);
    if paths != [] {
      assert EncodePaths(paths)[0] == EncodePath(paths[0]);
    }
    forall i | 0 <= i < |paths|
      ensures StripBraces(EncodePaths(paths)[i]) == paths[i]
    {
      EncodePathsAt(paths, i);
      var p := paths[i];
      if HasSpace(p) {
        StripGroup(p);
      } else {
        StripUnbraced(p);
      }
    }
  }

  lemma {:induction false} EncodePathsAt(paths: seq<string>, i: nat)
    requires i < |paths|
    ensures EncodePaths(paths)[i] == EncodePath(paths[i])
  {
    if i > 0 {
      EncodePathsAt(paths[1..], i - 1);
    }
  }

  lemma {:induction false} FindAllPayload(paths: seq<string>)
    requires forall i :: 0 <= i < |paths| ==> PlainPath(paths[i])
    ensures FindAll(Payload(paths)) == EncodePaths(paths)
  {
    if paths != [] {
      var p := paths[0];
      var e := EncodePath(p);
      var rest := paths[1..];
      var tail := if |paths| == 1 then [] else " " + Payload(rest);
      assert Payload(paths) == e + tail;
      if |paths| > 1 {
        FindAllPayload(rest);
        FindAllSpace(' ', Payload(rest));
        assert tail == [' '] + Payload(rest);
      }
      assert FindAll(tail) == EncodePaths(rest) by {
        if |paths| == 1 {
          assert rest == [];
        }
      }
      if HasSpace(p) {
        FindAllGroup(p, tail);
        assert e + tail == "{" + p + "}" + tail;
      } else {
        assert IsRun(p);
        FindAllRun(p, tail);
      }
    }
  }

  // ---------------------------------------------------------------------
  // The window

  class ImageApp {
    var images: seq<string>
    var message: Label
    var thumbs: seq<Thumb>

    function State(): AppState
      reads this
    {
      AppState(images, message, thumbs)
    }

    ghost predicate Valid()
      reads this
    {
      WellPlaced(State())
    }

    constructor ()
      ensures Valid() && State() == AppState([], Prompt, [])
    {
      images := [];
      message := Prompt;
      thumbs := [];
    }

    /** `display_image(path)` */
    method DisplayImage(path: string, env: Env)
      requires Valid()
      modifies this
      ensures Valid()
      ensures State() == Display(old(State()), path, env)
    {
      DisplayFacts(State(), path, env);
      if path !in env.existing {
        message := NoSuchFile(path);
        return;
      }
      images := images + [path];
      if path !in env.decodable {
        message := LoadError;
        return;
      }
      var i := |images| - 1;
      var columns := Columns(env.frameWidth);
      if columns == 0 {
        message := LoadError;
        return;
      }
      thumbs := thumbs + [Thumb(i, i / columns, i % columns)];
    }

    /** `choose_files()`, given the paths the file dialog returned. */
    method ChooseFiles(paths: seq<string>, env: Env)
      requires Valid()
      modifies this
      ensures Valid()
      ensures State() == DisplayAll(old(State()), paths, env)
    {
      var k := 0;
      while k < |paths|
        invariant 0 <= k <= |paths|
        invariant Valid()
        invariant State() == DisplayAll(old(State()), paths[..k], env)
      {
        DisplayAllSnoc(old(State()), paths, k, env);
        DisplayImage(paths[k], env);
        k := k + 1;
      }
      assert paths[..k] == paths;
    }

    /** One pass of the drop loop: strip the token, then display it or
        report that it is not an image. */
    method HandleToken(token: string, env: Env)
      requires Valid()
      modifies this
      ensures Valid()
      ensures State() == DropToken(old(State()), token, env)
    {
      var path := StripBraces(token);
      if IsImagePath(path) {
        DisplayImage(path, env);
      } else {
        DropTokenExtends(State(), token, env);
        message := NotAnImage(path);
      }
    }

    /** `on_drop(data)` */
    method OnDrop(data: string, env: Env)
      requires Valid()
      modifies this
      ensures Valid()
      ensures State() == Drop(old(State()), data, env)
    {
      var paths := Tokenize(data);
      if paths == [] {
        message := ExtractFailed;
        return;
      }
      var k := 0;
      while k < |paths|
        invariant 0 <= k <= |paths|
        invariant Valid()
        invariant State() == DropTokens(old(State()), paths[..k], env)
      {
        DropTokensSnoc(old(State()), paths, k, env);
        HandleToken(paths[k], env);
        k := k + 1;
      }
      assert paths[..k] == paths;
    }
  }
}
