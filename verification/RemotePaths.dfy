/**
  Remote paths between the web UI, which prints them into a URL, and the API handler, which parses, validates
  and trims them.
 */
module RemotePaths {
  import opened Prelude
  import opened Splitting
  import opened StringSearch

  // ---------------------------------------------------------------- the UI

  /** The path of the request for a file's content, after the API prefix. An empty directory counts as none. */
  function FilePath(dirPath: Option<string>, fileName: string): string {
    if dirPath.Some? && dirPath.value != "" then dirPath.value + "/" + fileName else fileName
  }

  function PrintFileUrl(remote: string, dirPath: Option<string>, fileName: string): string {
    "/[" + remote + ":]" + FilePath(dirPath, fileName)
  }

  // ---------------------------------------------------------------- the handler's strings

  function TrimLeft(s: string, c: char): string {
    if s != "" && s[0] == c then TrimLeft(s[1..], c) else s
  }

  function TrimRight(s: string, c: char): string {
    if s != "" && s[|s| - 1] == c then TrimRight(s[..|s| - 1], c) else s
  }

  function Trim(s: string, c: char): string {
    TrimRight(TrimLeft(s, c), c)
  }

  /** What the pattern ^\[(.*?)\](.*)$ accepts, with its two groups. A dot does not match a newline. */
  predicate Matches(s: string, name: string, rest: string) {
    s == "[" + name + "]" + rest && '\n' !in name && '\n' !in rest
  }

  function FsMatch(s: string): Option<(string, string)> {
    if s == "" || s[0] != '[' then None
    else
      var i := IndexOf(s, ']');
      if i == |s| || '\n' in s then None else Some((s[1..i], s[i + 1..]))
  }

  /** The match is found whenever there is one, and its lazy group is the shortest possible. */
  lemma FsMatchIsLazy(s: string, name: string, rest: string)
    requires Matches(s, name, rest)
    ensures FsMatch(s).Some? && Matches(s, FsMatch(s).value.0, FsMatch(s).value.1)
    ensures |FsMatch(s).value.0| <= |name|
  {
    var i := IndexOf(s, ']');
    assert s[|name| + 1] == ']';
    assert s == "[" + s[1..i] + "]" + s[i + 1..];
  }

  lemma FsMatchIsSound(s: string)
    requires FsMatch(s).Some?
    ensures Matches(s, FsMatch(s).value.0, FsMatch(s).value.1)
  {
  }

  // ---------------------------------------------------------------- validation

  datatype FsCheck = FsOk | NoColon | EmptyRemote | NotConfigured

  /** The value names a configured remote before its first colon. */
  predicate ValidFs(value: string, sections: seq<string>) {
    var i := IndexOf(value, ':');
    i < |value| && i > 0 && value[..i] in sections
  }

  method ValidateFsParam(value: string, sections: seq<string>) returns (r: FsCheck)
    ensures r.FsOk? <==> ValidFs(value, sections)
    ensures r.NoColon? <==> ':' !in value
    ensures r.EmptyRemote? <==> value != "" && value[0] == ':'
  {
    var colonIdx := IndexOf(value, ':');
    if colonIdx == |value| {
      return NoColon;
    }
    var remoteName := value[..colonIdx];
    if remoteName == "" {
      return EmptyRemote;
    }
    for i := 0 to |sections|
      invariant remoteName !in sections[..i]
    {
      if sections[i] == remoteName {
        return FsOk;
      }
    }
    return NotConfigured;
  }

  predicate ValidRemote(value: string) {
    ".." !in Split(value, '/')
  }

  method ValidateRemoteParam(value: string) returns (ok: bool)
    ensures ok <==> ValidRemote(value)
  {
    var parts := Split(value, '/');
    for i := 0 to |parts|
      invariant ".." !in parts[..i]
    {
      if parts[i] == ".." {
        return false;
      }
    }
    return true;
  }

  datatype Param = Text(value: string) | Structured

  const FS_KEYS: seq<string> := ["fs", "srcFs", "dstFs"]
  const REMOTE_KEYS: seq<string> := ["remote", "srcRemote", "dstRemote"]

  predicate FsParamOk(params: map<string, Param>, key: string, sections: seq<string>) {
    key in params && params[key].Text? ==> ValidFs(params[key].value, sections)
  }

  predicate RemoteParamOk(params: map<string, Param>, key: string) {
    key in params && params[key].Text? ==> ValidRemote(params[key].value)
  }

  predicate AllParamsOk(params: map<string, Param>, sections: seq<string>) {
    && (forall key :: key in FS_KEYS ==> FsParamOk(params, key, sections))
    && (forall key :: key in REMOTE_KEYS ==> RemoteParamOk(params, key))
  }

  predicate NamedParam(params: map<string, Param>, key: string, sections: seq<string>) {
    key in params && params[key].Text? ==> NamesConfigured(params[key].value, sections)
  }

  predicate LevelParam(params: map<string, Param>, key: string) {
    key in params && params[key].Text? ==> ".." !in Split(params[key].value, '/')
  }

  lemma ParamsMean(params: map<string, Param>, sections: seq<string>)
    ensures AllParamsOk(params, sections) <==>
            && (forall key :: key in {"fs", "srcFs", "dstFs"} ==> NamedParam(params, key, sections))
            && (forall key :: key in {"remote", "srcRemote", "dstRemote"} ==> LevelParam(params, key))
  {
    forall key: string
      ensures key in FS_KEYS <==> key in {"fs", "srcFs", "dstFs"}
      ensures key in REMOTE_KEYS <==> key in {"remote", "srcRemote", "dstRemote"}
      ensures FsParamOk(params, key, sections) <==> NamedParam(params, key, sections)
      ensures RemoteParamOk(params, key) <==> LevelParam(params, key)
    {
      if key in params && params[key].Text? {
        ValidFsMeans(params[key].value, sections);
      }
    }
  }

  /** Every string among the file-system and path parameters is checked; other values pass. */
  method ValidateRCParams(params: map<string, Param>, sections: seq<string>) returns (ok: bool)
    ensures ok <==> AllParamsOk(params, sections)
    ensures ok <==>
            && (forall key :: key in {"fs", "srcFs", "dstFs"} ==> NamedParam(params, key, sections))
            && (forall key :: key in {"remote", "srcRemote", "dstRemote"} ==> LevelParam(params, key))
  {
    ParamsMean(params, sections);
    for i := 0 to |FS_KEYS|
      invariant forall key :: key in FS_KEYS[..i] ==> FsParamOk(params, key, sections)
    {
      var key := FS_KEYS[i];
      if key in params && params[key].Text? {
        var check := ValidateFsParam(params[key].value, sections);
        if !check.FsOk? {
          assert !FsParamOk(params, key, sections);
          return false;
        }
      }
    }
    for i := 0 to |REMOTE_KEYS|
      invariant forall key :: key in REMOTE_KEYS[..i] ==> RemoteParamOk(params, key)
    {
      var key := REMOTE_KEYS[i];
      if key in params && params[key].Text? {
        var valid := ValidateRemoteParam(params[key].value);
        if !valid {
          assert !RemoteParamOk(params, key);
          return false;
        }
      }
    }
    return true;
  }

  // ---------------------------------------------------------------- GET

  datatype Outcome = NotFound | Forbidden | List(fs: string, path: string) | Serve(fs: string, path: string)

  function Served(fs: string, path: string): Outcome {
    if path == "" || path[|path| - 1] == '/' then List(fs, Trim(path, '/')) else Serve(fs, Trim(path, '/'))
  }

  function Get(urlPath: string, sections: seq<string>): Outcome {
    match FsMatch(TrimLeft(urlPath, '/'))
    case None => NotFound
    case Some((fs, path)) => if ValidFs(fs, sections) && ValidRemote(path) then Served(fs, path) else Forbidden
  }

  predicate Slashes(s: string) {
    forall i :: 0 <= i < |s| ==> s[i] == '/'
  }

  /** The request path is slashes, the bracketed text and the rest, without newlines. */
  predicate AsksFor(urlPath: string, slashes: string, fs: string, path: string) {
    urlPath == slashes + ("[" + fs + "]" + path) && Slashes(slashes) && ']' !in fs && '\n' !in fs && '\n' !in path
  }

  /** The text is a configured remote, a colon, and anything. */
  predicate NamesConfigured(fs: string, sections: seq<string>) {
    exists i :: 0 < i < |fs| && fs[i] == ':' && ':' !in fs[..i] && fs[..i] in sections
  }

  /** `core` is `path` without the slashes at its ends. */
  ghost predicate Stripped(core: string, path: string) {
    && (exists a, b :: path == a + core + b && Slashes(a) && Slashes(b))
    && (core == "" || (core[0] != '/' && core[|core| - 1] != '/'))
  }

  /** The right answer to a request for `path` in the file system `fs`. */
  ghost predicate Answers(r: Outcome, fs: string, path: string, sections: seq<string>) {
    if !NamesConfigured(fs, sections) || ".." in Split(path, '/') then r == Forbidden
    else
      && (if path == "" || path[|path| - 1] == '/' then r.List? else r.Serve?)
      && r.fs == fs && Stripped(r.path, path)
  }

  method HandleGet(urlPath: string, sections: seq<string>) returns (r: Outcome)
    ensures r == Get(urlPath, sections)
    ensures forall slashes, fs, path :: AsksFor(urlPath, slashes, fs, path) ==> Answers(r, fs, path, sections)
    ensures r == NotFound <==> !exists slashes, fs, path :: AsksFor(urlPath, slashes, fs, path)
  {
    GetAnswers(urlPath, sections);
    var path := TrimLeft(urlPath, '/');
    var m := FsMatch(path);
    if m.Some? {
      var fsName, remotePath := m.value.0, m.value.1;
      var check := ValidateFsParam(fsName, sections);
      if !check.FsOk? {
        return Forbidden;
      }
      var valid := ValidateRemoteParam(remotePath);
      if !valid {
        return Forbidden;
      }
      if remotePath == "" || remotePath[|remotePath| - 1] == '/' {
        return List(fsName, Trim(remotePath, '/'));
      }
      return Serve(fsName, Trim(remotePath, '/'));
    }
    return NotFound;
  }

  lemma {:induction false} LeftSlashes(s: string) returns (a: string)
    ensures s == a + TrimLeft(s, '/') && Slashes(a)
    ensures TrimLeft(s, '/') != "" ==> TrimLeft(s, '/')[0] != '/'
  {
    a := "";
    if s != "" && s[0] == '/' {
      a := LeftSlashes(s[1..]);
      a := ['/'] + a;
    }
  }

  lemma {:induction false} RightSlashes(s: string) returns (b: string)
    ensures s == TrimRight(s, '/') + b && Slashes(b)
    ensures TrimRight(s, '/') != "" ==> TrimRight(s, '/')[|TrimRight(s, '/')| - 1] != '/'
    decreases |s|
  {
    b := "";
    if s != "" && s[|s| - 1] == '/' {
      b := RightSlashes(s[..|s| - 1]);
      b := b + ['/'];
    }
  }

  lemma TrimStrips(path: string)
    ensures Stripped(Trim(path, '/'), path)
  {
    var a := LeftSlashes(path);
    var b := RightSlashes(TrimLeft(path, '/'));
    assert path == a + Trim(path, '/') + b;
  }

  lemma ValidFsMeans(fs: string, sections: seq<string>)
    ensures ValidFs(fs, sections) <==> NamesConfigured(fs, sections)
  {
    var i := IndexOf(fs, ':');
    assert ':' !in fs[..i];
    if NamesConfigured(fs, sections) {
      var j :| 0 < j < |fs| && fs[j] == ':' && ':' !in fs[..j] && fs[..j] in sections;
      assert forall k :: 0 <= k < j ==> fs[k] == fs[..j][k];
      IndexOfFirst(fs, ':', j);
    }
  }

  lemma ServedAnswers(fs: string, path: string, sections: seq<string>)
    ensures Answers(if ValidFs(fs, sections)
        && ValidRemote(path) then Served(fs, path) else Forbidden, fs, path, sections)
  {
    ValidFsMeans(fs, sections);
    TrimStrips(path);
  }

  lemma {:induction false} SlashesTrimmed(slashes: string, s: string)
    requires Slashes(slashes) && s != "" && s[0] != '/'
    ensures TrimLeft(slashes + s, '/') == s
  {
    if slashes == "" {
      assert slashes + s == s;
    } else {
      SlashesTrimmed(slashes[1..], s);
      assert (slashes + s)[1..] == slashes[1..] + s;
    }
  }

  lemma AskedIsMatched(urlPath: string, slashes: string, fs: string, path: string)
    requires AsksFor(urlPath, slashes, fs, path)
    ensures FsMatch(TrimLeft(urlPath, '/')) == Some((fs, path))
  {
    var s := "[" + fs + "]" + path;
    FsMatchAt(s, fs, path);
    SlashesTrimmed(slashes, s);
  }

  lemma MatchedIsAsked(urlPath: string)
    requires FsMatch(TrimLeft(urlPath, '/')).Some?
    ensures exists slashes, fs, path :: AsksFor(urlPath, slashes, fs, path)
  {
    var slashes := LeftSlashes(urlPath);
    var s := TrimLeft(urlPath, '/');
    var (fs, path) := FsMatch(s).value;
    FsMatchIsSound(s);
    assert ']' !in fs;
    assert AsksFor(urlPath, slashes, fs, path);
  }

  /** Every request of the form is answered rightly, and no other is found. */
  lemma GetAnswers(urlPath: string, sections: seq<string>)
    ensures forall slashes, fs, path :: AsksFor(urlPath, slashes, fs, path) ==>
              Answers(Get(urlPath, sections), fs, path, sections)
    ensures Get(urlPath, sections) == NotFound <==> !exists slashes, fs, path :: AsksFor(urlPath, slashes, fs, path)
  {
    forall slashes, fs, path | AsksFor(urlPath, slashes, fs, path)
      ensures Answers(Get(urlPath, sections), fs, path, sections) && Get(urlPath, sections) != NotFound
    {
      AskedIsMatched(urlPath, slashes, fs, path);
      ServedAnswers(fs, path, sections);
    }
    if FsMatch(TrimLeft(urlPath, '/')).Some? {
      MatchedIsAsked(urlPath);
    }
  }

  /** Slashes at the ends apart, nothing of the path is lost. */
  lemma StrippedIsOne(core: string, path: string)
    requires path != "" && path[0] != '/' && path[|path| - 1] != '/' && Stripped(core, path)
    ensures core == path
  {
    var a, b :| path == a + core + b && Slashes(a) && Slashes(b);
    EndsOf(a, core, b);
    assert a + core + b == path;
    assert a == "" && b == "";
  }

  lemma EndsOf(a: string, core: string, b: string)
    ensures a != "" ==> (a + core + b)[0] == a[0]
    ensures b != "" ==> (a + core + b)[|a + core + b| - 1] == b[|b| - 1]
  {
  }

  /**
    What the UI prints for a configured remote, the handler parses back to that remote and path: forbidden exactly
    when a component is "..", a listing when the path is empty or ends in a slash, and else the file itself.
   */
  lemma HandlerReadsPrinter(remote: string, dirPath: Option<string>, fileName: string, sections: seq<string>)
    requires remote != "" && ']' !in remote && ':' !in remote && '\n' !in remote && remote in sections
    requires '\n' !in FilePath(dirPath, fileName)
    ensures Answers(Get(PrintFileUrl(remote, dirPath, fileName), sections), remote
        + ":", FilePath(dirPath, fileName), sections)
    ensures ".." in Split(FilePath(dirPath, fileName), '/') <==>
            Get(PrintFileUrl(remote, dirPath, fileName), sections) == Forbidden
  {
    var path, fs := FilePath(dirPath, fileName), remote + ":";
    assert ']' !in fs && '\n' !in fs;
    NamedByName(remote, sections);
    SlashFirst(fs, path);
    assert AsksFor(PrintFileUrl(remote, dirPath, fileName), "/", fs, path);
    GetAnswers(PrintFileUrl(remote, dirPath, fileName), sections);
  }

  /** So a file in a folder is served under its folder's path and its name, and one at the top under its name. */
  lemma PrintedFileIsServed(remote: string, dir: string, fileName: string, sections: seq<string>)
    requires remote != "" && ']' !in remote && ':' !in remote && '\n' !in remote && remote in sections
    requires '\n' !in dir && '\n' !in fileName && fileName != "" && fileName[|fileName| - 1] != '/'
    ensures dir != "" && dir[0] != '/' && ".." !in Split(dir + "/" + fileName, '/') ==>
              Get(PrintFileUrl(remote, Some(dir), fileName), sections) == Serve(remote + ":", dir + "/" + fileName)
    ensures fileName[0] != '/' && ".." !in Split(fileName, '/') ==>
              Get(PrintFileUrl(remote, None, fileName), sections) == Serve(remote + ":", fileName)
              && Get(PrintFileUrl(remote, Some(""), fileName), sections) == Serve(remote + ":", fileName)
  {
    if dir != "" && dir[0] != '/' && ".." !in Split(dir + "/" + fileName, '/') {
      EndsOf(dir, "/", fileName);
      PlainFileIsServed(remote, Some(dir), fileName, sections);
    }
    if fileName[0] != '/' && ".." !in Split(fileName, '/') {
      PlainFileIsServed(remote, None, fileName, sections);
      PlainFileIsServed(remote, Some(""), fileName, sections);
    }
  }

  lemma PlainFileIsServed(remote: string, dirPath: Option<string>, fileName: string, sections: seq<string>)
    requires remote != "" && ']' !in remote && ':' !in remote && '\n' !in remote && remote in sections
    requires '\n' !in FilePath(dirPath, fileName) && ".." !in Split(FilePath(dirPath, fileName), '/')
    requires var path := FilePath(dirPath, fileName); path != "" && path[0] != '/' && path[|path| - 1] != '/'
    ensures Get(PrintFileUrl(remote, dirPath, fileName), sections) == Serve(remote + ":", FilePath(dirPath, fileName))
  {
    HandlerReadsPrinter(remote, dirPath, fileName, sections);
    NamedByName(remote, sections);
    PlainAnswer(Get(PrintFileUrl(remote, dirPath, fileName), sections), remote
      + ":", FilePath(dirPath, fileName), sections);
  }

  lemma NamedByName(remote: string, sections: seq<string>)
    requires remote != "" && ':' !in remote && remote in sections
    ensures NamesConfigured(remote + ":", sections)
  {
    var fs := remote + ":";
    assert fs[..|remote|] == remote && fs[|remote|] == ':';
  }

  lemma PlainAnswer(r: Outcome, fs: string, path: string, sections: seq<string>)
    requires Answers(r, fs, path, sections) && NamesConfigured(fs, sections) && ".." !in Split(path, '/')
    requires path != "" && path[0] != '/' && path[|path| - 1] != '/'
    ensures r == Serve(fs, path)
  {
    StrippedIsOne(r.path, path);
  }

  // ---------------------------------------------------------------- where a path leads

  /** Following the components from the root; None is a step above it. */
  function Follow(parts: seq<string>, at: seq<string>): Option<seq<string>> {
    if parts == [] then Some(at)
    else if parts[0] == "" || parts[0] == "." then Follow(parts[1..], at)
    else if parts[0] == ".." then if at == [] then None else Follow(parts[1..], at[..|at| - 1])
    else Follow(parts[1..], at + [parts[0]])
  }

  function NonEmpty(parts: seq<string>): seq<string> {
    if parts == [] then [] else (if parts[0] == "" then [] else [parts[0]]) + NonEmpty(parts[1..])
  }

  function Names(parts: seq<string>): seq<string> {
    if parts == [] then [] else (if parts[0] == "" || parts[0] == "." then [] else [parts[0]]) + Names(parts[1..])
  }

  lemma {:induction false} NoStepUp(parts: seq<string>, at: seq<string>)
    requires ".." !in parts
    ensures Follow(parts, at) == Some(at + Names(parts))
    decreases |parts|
  {
    if parts == [] {
      assert at + Names(parts) == at;
    } else {
      NoStepUp(parts[1..], at);
      NoStepUp(parts[1..], at + [parts[0]]);
      assert (at + [parts[0]]) + Names(parts[1..]) == at + ([parts[0]] + Names(parts[1..]));
      assert [] + Names(parts[1..]) == Names(parts[1..]);
    }
  }

  lemma {:induction false} NonEmptySnoc(parts: seq<string>)
    ensures NonEmpty(parts + [""]) == NonEmpty(parts)
    ensures Names(parts + [""]) == Names(parts)
  {
    if parts == [] {
      assert ([] + [""])[1..] == [];
    } else {
      NonEmptySnoc(parts[1..]);
      assert (parts + [""])[1..] == parts[1..] + [""];
    }
  }

  /** Two paths with the same components apart from empty ones. */
  predicate SameComponents(a: string, b: string) {
    && NonEmpty(Split(a, '/')) == NonEmpty(Split(b, '/'))
    && Names(Split(a, '/')) == Names(Split(b, '/'))
    && (ValidRemote(a) <==> ValidRemote(b))
  }

  lemma {:induction false} TrimLeftKeeps(s: string)
    ensures SameComponents(s, TrimLeft(s, '/'))
  {
    if s != "" && s[0] == '/' {
      TrimLeftKeeps(s[1..]);
      var rest := Split(s[1..], '/');
      assert Split(s, '/') == [""] + rest && ([""] + rest)[1..] == rest;
    }
  }

  lemma {:induction false} TrimRightKeeps(s: string)
    ensures SameComponents(s, TrimRight(s, '/'))
    decreases |s|
  {
    if s != "" && s[|s| - 1] == '/' {
      var t := s[..|s| - 1];
      TrimRightKeeps(t);
      assert s == t + ['/'];
      SplitSnoc(t, '/');
      NonEmptySnoc(Split(t, '/'));
    }
  }

  /**
    An accepted path never steps above its root, and neither does what is left after the slashes are trimmed:
    both lead to the same place and have the same non-empty components.
   */
  lemma AcceptedStaysBeneath(path: string)
    requires ValidRemote(path)
    ensures var trimmed := Trim(path, '/');
            && ValidRemote(trimmed)
            && NonEmpty(Split(trimmed, '/')) == NonEmpty(Split(path, '/'))
            && Follow(Split(path, '/'), []) == Follow(Split(trimmed, '/'), []) == Some(Names(Split(path, '/')))
  {
    TrimLeftKeeps(path);
    TrimRightKeeps(TrimLeft(path, '/'));
    assert [] + Names(Split(path, '/')) == Names(Split(path, '/'));
    NoStepUp(Split(path, '/'), []);
    NoStepUp(Split(Trim(path, '/'), '/'), []);
  }

  /** A path that would step above the root of its file system is refused. */
  lemma EscapesAreRefused(urlPath: string, sections: seq<string>, fs: string, path: string)
    requires FsMatch(TrimLeft(urlPath, '/')) == Some((fs, path)) && Follow(Split(path, '/'), []).None?
    ensures Get(urlPath, sections) == Forbidden
  {
    if ValidRemote(path) {
      AcceptedStaysBeneath(path);
    }
  }

  // ---------------------------------------------------------------- the file system's own path

  /** What follows the remote's name: a path from the remote's root to the root of the file system. */
  function SubPath(fs: string): string {
    if IndexOf(fs, ':') == |fs| then "" else fs[IndexOf(fs, ':') + 1..]
  }

  /** The components from the root of the remote to what is asked for. */
  function FromRemote(fs: string, path: string): seq<string> {
    Split(SubPath(fs), '/') + Split(path, '/')
  }

  lemma {:induction false} FollowAppend(a: seq<string>, b: seq<string>, at: seq<string>)
    ensures Follow(a + b, at) == if Follow(a, at).None? then None else Follow(b, Follow(a, at).value)
    decreases |a|
  {
    if a == [] {
      assert a + b == b;
    } else {
      assert (a + b)[1..] == a[1..] + b;
      if a[0] == "" || a[0] == "." {
        FollowAppend(a[1..], b, at);
      } else if a[0] != ".." {
        FollowAppend(a[1..], b, at + [a[0]]);
      } else if at != [] {
        FollowAppend(a[1..], b, at[..|at| - 1]);
      }
    }
  }

  /**
    What is served stays beneath its remote exactly when the path inside the file-system parameter does, which the
    handler does not check.
   */
  lemma BeneathRemoteExactly(urlPath: string, sections: seq<string>)
    requires Get(urlPath, sections).List? || Get(urlPath, sections).Serve?
    ensures var r := Get(urlPath, sections);
            Follow(FromRemote(r.fs, r.path), []).Some? <==> Follow(Split(SubPath(r.fs), '/'), []).Some?
  {
    var (fs, path) := FsMatch(TrimLeft(urlPath, '/')).value;
    AcceptedStaysBeneath(path);
    var sub, parts := Split(SubPath(fs), '/'), Split(Trim(path, '/'), '/');
    FollowAppend(sub, parts, []);
    if Follow(sub, []).Some? {
      NoStepUp(parts, Follow(sub, []).value);
    }
  }

  /** The UI names the remote alone, so whatever it prints and is served lies beneath the remote. */
  lemma PrintedStaysBeneath(remote: string, dirPath: Option<string>, fileName: string, sections: seq<string>)
    requires remote != "" && ']' !in remote && ':' !in remote && '\n' !in remote && remote in sections
    requires '\n' !in FilePath(dirPath, fileName) && ValidRemote(FilePath(dirPath, fileName))
    ensures var r := Get(PrintFileUrl(remote, dirPath, fileName), sections);
            (r.List? || r.Serve?) && Follow(FromRemote(r.fs, r.path), []).Some?
  {
    HandlerReadsPrinter(remote, dirPath, fileName, sections);
    BeneathRemoteExactly(PrintFileUrl(remote, dirPath, fileName), sections);
    NamesRemote(remote, "", sections);
    assert remote + ":" + "" == remote + ":";
    assert Split("", '/') == [""] && [""][1..] == [];
  }

  /** A file-system parameter that climbs is accepted and leads above the remote. */
  lemma SubPathClimbs(remote: string, name: string, sections: seq<string>)
    requires remote != "" && ']' !in remote && ':' !in remote && '\n' !in remote && remote in sections
    requires name != "" && name != ".." && '\n' !in name && '/' !in name
    ensures Get("/[" + remote + ":..]" + name, sections) == Serve(remote + ":..", name)
    ensures Follow(FromRemote(remote + ":..", name), []) == None
  {
    var fs := remote + ":" + "..";
    assert fs == remote + ":.." && "/[" + fs + "]" + name == "/[" + remote + ":..]" + name;
    assert ']' !in fs && '\n' !in fs;
    MatchOf(fs, name);
    NamesRemote(remote, "..", sections);
    OneComponent(name, fs);
    OneComponent("..", fs);
    FollowAppend([".."], [name], []);
  }

  lemma NamesRemote(remote: string, sub: string, sections: seq<string>)
    requires remote != "" && ':' !in remote && remote in sections
    ensures ValidFs(remote + ":" + sub, sections) && SubPath(remote + ":" + sub) == sub
  {
    var fs := remote + ":" + sub;
    assert fs[|remote|] == ':' && forall j :: 0 <= j < |remote| ==> fs[j] == remote[j];
    IndexOfFirst(fs, ':', |remote|);
    assert fs[..|remote|] == remote && fs[|remote| + 1..] == sub;
  }

  lemma OneComponent(name: string, fs: string)
    requires name != "" && '/' !in name
    ensures Split(name, '/') == [name] && (ValidRemote(name) <==> name != "..") && Served(fs, name) == Serve(fs, name)
  {
    SplitNone(name, '/');
    assert name[0] != '/' && name[|name| - 1] != '/';
  }

  lemma BracketCloses(fs: string, path: string)
    requires ']' !in fs
    ensures IndexOf("[" + fs + "]" + path, ']') == |fs| + 1
  {
    var s := "[" + fs + "]" + path;
    assert s[|fs| + 1] == ']' && forall j :: 0 < j < |fs| + 1 ==> s[j] == fs[j - 1];
    IndexOfFirst(s, ']', |fs| + 1);
  }

  lemma OneLine(fs: string, path: string)
    requires '\n' !in fs && '\n' !in path
    ensures '\n' !in "[" + fs + "]" + path
  {
    var s := "[" + fs + "]" + path;
    assert '\n' !in "[" + fs && '\n' !in "[" + fs + "]";
  }

  lemma OneSlash(rest: string)
    requires rest != "" && rest[0] != '/'
    ensures TrimLeft("/" + rest, '/') == rest
  {
    assert ("/" + rest)[1..] == rest;
  }

  lemma BracketParts(fs: string, path: string)
    ensures ("[" + fs + "]" + path)[1..|fs| + 1] == fs
    ensures ("[" + fs + "]" + path)[|fs| + 2..] == path
  {
  }

  lemma FsMatchAt(s: string, fs: string, path: string)
    requires s == "[" + fs + "]" + path && ']' !in fs && '\n' !in fs && '\n' !in path
    ensures s != "" && s[0] == '[' && FsMatch(s) == Some((fs, path))
  {
    BracketCloses(fs, path);
    OneLine(fs, path);
    BracketParts(fs, path);
  }

  lemma MatchOf(fs: string, path: string)
    requires ']' !in fs && '\n' !in fs && '\n' !in path
    ensures FsMatch(TrimLeft("/[" + fs + "]" + path, '/')) == Some((fs, path))
  {
    var s := "[" + fs + "]" + path;
    FsMatchAt(s, fs, path);
    OneSlash(s);
    SlashFirst(fs, path);
  }

  lemma SlashFirst(fs: string, path: string)
    ensures "/[" + fs + "]" + path == "/" + ("[" + fs + "]" + path)
  {
  }
}
