/**
  Base64 and the strings built from it: route tokens, breadcrumb links and PKCE values.
  Text is its UTF-8 encoding, a sequence of bytes.
 */

/** Base64 as of section 4 of RFC 4648, the padding of section 3.2 and the alphabet of section 5. */
module Base64 {
  import opened Prelude

  type Byte = b: int | 0 <= b < 256
  type Bytes = seq<Byte>
  type Digit = d: int | 0 <= d < 64

  function CharOf(d: Digit): char {
    if d < 26 then ('A' as int + d) as char
    else if d < 52 then ('a' as int + d - 26) as char
    else if d < 62 then ('0' as int + d - 52) as char
    else if d == 62 then '+' else '/'
  }

  /** The reader takes both alphabets. */
  function DigitOf(c: char): Option<Digit> {
    if 'A' <= c <= 'Z' then Some(c as int - 'A' as int)
    else if 'a' <= c <= 'z' then Some(c as int - 'a' as int + 26)
    else if '0' <= c <= '9' then Some(c as int - '0' as int + 52)
    else if c == '+' || c == '-' then Some(62)
    else if c == '/' || c == '_' then Some(63)
    else None
  }

  lemma CharRoundTrip(d: Digit)
    ensures DigitOf(CharOf(d)) == Some(d)
    ensures CharOf(d) == '/' <==> d == 63
    ensures CharOf(d) != '=' && CharOf(d) != '-' && CharOf(d) != '_'
  {
  }

  /** The alphabet of table 1 of RFC 4648: four runs of consecutive characters. */
  lemma AlphabetIsStandard(d: Digit)
    ensures CharOf(0) == 'A' && CharOf(25) == 'Z' && CharOf(26) == 'a' && CharOf(51) == 'z'
    ensures CharOf(52) == '0' && CharOf(61) == '9' && CharOf(62) == '+' && CharOf(63) == '/'
    ensures d < 63 && d !in {25, 51, 61, 62} ==> CharOf(d + 1) as int == CharOf(d) as int + 1
  {
  }

  function DigitsOfBytes(b: Bytes): seq<Digit> {
    if |b| == 0 then []
    else if |b| == 1 then [b[0] / 4, b[0] % 4 * 16]
    else if |b| == 2 then [b[0] / 4, b[0] % 4 * 16 + b[1] / 16, b[1] % 16 * 4]
    else [b[0] / 4, b[0] % 4 * 16 + b[1] / 16, b[1] % 16 * 4 + b[2] / 64, b[2] % 64] + DigitsOfBytes(b[3..])
  }

  /** A lone last digit carries no byte. */
  function BytesOfDigits(d: seq<Digit>): Bytes {
    if |d| <= 1 then []
    else if |d| == 2 then [First(d[0], d[1])]
    else if |d| == 3 then [First(d[0], d[1]), Second(d[1], d[2])]
    else [First(d[0], d[1]), Second(d[1], d[2]), Third(d[2], d[3])] + BytesOfDigits(d[4..])
  }

  function First(p: int, q: int): Byte
    requires 0 <= p < 64 && 0 <= q < 64
  {
    p * 4 + q / 16
  }

  function Second(p: int, q: int): Byte
    requires 0 <= p < 64 && 0 <= q < 64
  {
    p % 16 * 16 + q / 4
  }

  function Third(p: int, q: int): Byte
    requires 0 <= p < 64 && 0 <= q < 64
  {
    p % 4 * 64 + q
  }

  function Chars(d: seq<Digit>): string {
    seq(|d|, i requires 0 <= i < |d| => CharOf(d[i]))
  }

  function Padding(n: nat): string {
    if n % 3 == 0 then "" else if n % 3 == 1 then "==" else "="
  }

  function Encode(b: Bytes): string {
    Chars(DigitsOfBytes(b)) + Padding(|b|)
  }

  function Without(s: string, c: char): string {
    if s == "" then "" else (if s[0] == c then "" else [s[0]]) + Without(s[1..], c)
  }

  /** Reading stops at the padding and skips what is in no alphabet. */
  function DigitsOfText(s: string): seq<Digit> {
    if s == "" || s[0] == '=' then []
    else (match DigitOf(s[0]) case Some(d) => [d] case None => []) + DigitsOfText(s[1..])
  }

  function Decode(s: string): Bytes {
    BytesOfDigits(DigitsOfText(s))
  }

  lemma Packed(high: int, low: int, base: int)
    requires base in {4, 16, 64} && 0 <= low < base
    ensures (high * base + low) / base == high && (high * base + low) % base == low
  {
  }

  lemma Unpacked(n: int, base: int)
    requires base in {4, 16, 64}
    ensures n == n / base * base + n % base && 0 <= n % base < base
  {
  }

  lemma FirstRoundTrip(a: Byte, b: Byte)
    ensures First(a / 4, a % 4 * 16 + b / 16) == a
  {
    Unpacked(a, 4);
    Unpacked(b, 16);
    Packed(a % 4, b / 16, 16);
  }

  lemma SecondRoundTrip(a: Byte, b: Byte, c: Byte)
    ensures Second(a % 4 * 16 + b / 16, b % 16 * 4 + c / 64) == b
  {
    Unpacked(b, 16);
    Unpacked(c, 64);
    Packed(a % 4, b / 16, 16);
    Packed(b % 16, c / 64, 4);
  }

  lemma ThirdRoundTrip(b: Byte, c: Byte)
    ensures Third(b % 16 * 4 + c / 64, c % 64) == c
  {
    Unpacked(c, 64);
    Packed(b % 16, c / 64, 4);
  }

  /** One group of three bytes, whatever follows it. */
  lemma GroupRoundTrip(a: Byte, b: Byte, c: Byte, rest: Bytes)
    ensures BytesOfDigits(DigitsOfBytes([a, b, c] + rest)) == [a, b, c] + BytesOfDigits(DigitsOfBytes(rest))
    ensures |DigitsOfBytes([a, b, c] + rest)| == 4 + |DigitsOfBytes(rest)|
  {
    var bytes := [a, b, c] + rest;
    var group: seq<Digit> := [a / 4, a % 4 * 16 + b / 16, b % 16 * 4 + c / 64, c % 64];
    FirstRoundTrip(a, b);
    SecondRoundTrip(a, b, c);
    ThirdRoundTrip(b, c);
    assert bytes[3..] == rest && DigitsOfBytes(bytes) == group + DigitsOfBytes(rest);
    assert (group + DigitsOfBytes(rest))[4..] == DigitsOfBytes(rest);
  }

  /** Four digits of six bits are the three bytes read as one number; a shorter group is filled with zero bits. */
  lemma GroupIsNumber(a: Byte, b: Byte, c: Byte)
    ensures |DigitsOfBytes([a, b, c])| == 4
    ensures var d := DigitsOfBytes([a, b, c]);
            d[0] as int * 262144 + d[1] as int * 4096 + d[2] as int * 64 + d[3] as int
            == a as int * 65536 + b as int * 256 + c as int
    ensures DigitsOfBytes([a, b]) == DigitsOfBytes([a, b, 0])[..3]
    ensures DigitsOfBytes([a]) == DigitsOfBytes([a, 0, 0])[..2]
  {
    assert [a, b, c][3..] == [] && [a, b, 0][3..] == [] && [a, 0, 0][3..] == [];
    Unpacked(a, 4);
    Unpacked(b, 16);
    Unpacked(c, 64);
  }

  lemma OneRoundTrip(a: Byte)
    ensures |DigitsOfBytes([a])| == 2 && BytesOfDigits(DigitsOfBytes([a])) == [a]
  {
    FirstRoundTrip(a, 0);
  }

  lemma TwoRoundTrip(a: Byte, b: Byte)
    ensures |DigitsOfBytes([a, b])| == 3 && BytesOfDigits(DigitsOfBytes([a, b])) == [a, b]
  {
    FirstRoundTrip(a, b);
    SecondRoundTrip(a, b, 0);
  }

  /** Three times the digits are four times the bytes, and this for the last group if it is not full. */
  function ExtraThirds(n: nat): nat {
    if n % 3 == 0 then 0 else if n % 3 == 1 then 2 else 1
  }

  lemma {:induction false} DigitsRoundTrip(b: Bytes)
    ensures BytesOfDigits(DigitsOfBytes(b)) == b
    ensures 3 * |DigitsOfBytes(b)| == 4 * |b| + ExtraThirds(|b|)
  {
    if |b| == 1 {
      assert b == [b[0]];
      OneRoundTrip(b[0]);
    } else if |b| == 2 {
      assert b == [b[0], b[1]];
      TwoRoundTrip(b[0], b[1]);
    } else if |b| >= 3 {
      assert b == [b[0], b[1], b[2]] + b[3..];
      GroupRoundTrip(b[0], b[1], b[2], b[3..]);
      DigitsRoundTrip(b[3..]);
      assert ExtraThirds(|b| - 3) == ExtraThirds(|b|);
    }
  }

  lemma {:induction false} TextRoundTrip(d: seq<Digit>, tail: string)
    requires tail == "" || tail[0] == '='
    ensures DigitsOfText(Chars(d) + tail) == d
    decreases |d|
  {
    if d == [] {
      assert Chars(d) + tail == tail;
    } else {
      CharRoundTrip(d[0]);
      var s := Chars(d) + tail;
      assert s[0] == CharOf(d[0]) && s[1..] == Chars(d[1..]) + tail;
      TextRoundTrip(d[1..], tail);
    }
  }

  lemma {:induction false} StripChars(d: seq<Digit>, tail: string)
    ensures Without(Chars(d) + tail, '=') == Chars(d) + Without(tail, '=')
    decreases |d|
  {
    if d == [] {
      assert Chars(d) + tail == tail;
    } else {
      CharRoundTrip(d[0]);
      StripChars(d[1..], tail);
      assert Chars(d) == [CharOf(d[0])] + Chars(d[1..]);
      WithoutKeeps(CharOf(d[0]), '=', Chars(d[1..]) + tail);
      assert Chars(d) + tail == [CharOf(d[0])] + (Chars(d[1..]) + tail);
      assert Chars(d) + Without(tail, '=') == [CharOf(d[0])] + (Chars(d[1..]) + Without(tail, '='));
    }
  }

  lemma WithoutKeeps(kept: char, dropped: char, rest: string)
    requires kept != dropped
    ensures Without([kept] + rest, dropped) == [kept] + Without(rest, dropped)
  {
    assert ([kept] + rest)[1..] == rest;
  }

  lemma StripPadding(b: Bytes)
    ensures Without(Encode(b), '=') == Chars(DigitsOfBytes(b))
  {
    StripChars(DigitsOfBytes(b), Padding(|b|));
    var p := Padding(|b|);
    assert "="[1..] == "" && "=="[1..] == "=";
    assert Without("=", '=') == "" == Without("==", '=');
    assert Chars(DigitsOfBytes(b)) + "" == Chars(DigitsOfBytes(b));
  }

  /** Padding fills the text to whole groups of four characters, one for every three bytes or less. */
  lemma EncodedLength(b: Bytes)
    ensures |Encode(b)| % 4 == 0 && 4 * |b| <= 3 * |Encode(b)| < 4 * |b| + 12
  {
    DigitsRoundTrip(b);
  }

  /** Decoding undoes encoding, with the padding or without. */
  lemma DecodeEncode(b: Bytes)
    ensures Decode(Encode(b)) == b
    ensures Decode(Without(Encode(b), '=')) == b
  {
    DigitsRoundTrip(b);
    TextRoundTrip(DigitsOfBytes(b), Padding(|b|));
    StripPadding(b);
    TextRoundTrip(DigitsOfBytes(b), "");
    assert Chars(DigitsOfBytes(b)) + "" == Chars(DigitsOfBytes(b));
  }

  predicate Ascii(b: Bytes) {
    forall i :: 0 <= i < |b| ==> b[i] < 128
  }

  /** '?' or DEL as the last byte of a group of three. */
  predicate SlashAt(b: Bytes, i: int) {
    0 <= i < |b| && i % 3 == 2 && (b[i] == 63 || b[i] == 127)
  }

  lemma SlashShift(b: Bytes)
    requires |b| >= 3
    ensures (exists i :: SlashAt(b, i)) <==> SlashAt(b, 2) || exists i :: SlashAt(b[3..], i)
  {
    if i :| SlashAt(b[3..], i) {
      assert SlashAt(b, i + 3);
    }
    if i :| SlashAt(b, i) && i != 2 {
      assert SlashAt(b[3..], i - 3);
    }
  }

  lemma {:induction false} SlashDigits(b: Bytes)
    requires Ascii(b)
    ensures 63 in DigitsOfBytes(b) <==> exists i :: SlashAt(b, i)
  {
    if |b| >= 3 {
      SlashDigits(b[3..]);
      SlashShift(b);
      assert b[2] % 64 == 63 <==> SlashAt(b, 2);
    }
  }
}

module RouteTokens {
  import opened Prelude
  import opened Base64
  import opened Splitting

  const COLON: Byte := 58
  const SLASH: Byte := 47

  /** The token in a folder's route. */
  function Token(text: Bytes): string {
    Without(Encode(text), '=')
  }

  function TokenOf(remote: Bytes, path: Bytes): string {
    Token(remote + [COLON] + path)
  }

  datatype RemotePath = RemotePath(remote: Bytes, path: Option<Bytes>)

  /** The route parameter back to a remote and a path; a missing or empty remote is an error. */
  function ParseToken(token: string): Result<RemotePath> {
    if token == "" then Err
    else
      var parts := Split(Decode(token), COLON);
      if parts[0] == [] then Err
      else Ok(RemotePath(parts[0], if |parts| == 1 || parts[1] == [] then None else Some(parts[1])))
  }

  function PathOption(path: Bytes): Option<Bytes> {
    if path == [] then None else Some(path)
  }

  /** The first part of the path up to a colon. */
  lemma {:induction false} FirstPart(path: Bytes)
    ensures Split(path, COLON)[0] <= path
    ensures Split(path, COLON)[0] == path <==> COLON !in path
  {
    if path != [] {
      FirstPart(path[1..]);
      assert path == [path[0]] + path[1..];
    }
  }

  /**
    A token decodes to its remote and path exactly when the path has no colon; otherwise the path is cut at the
    first.
   */
  lemma TokenRoundTrip(remote: Bytes, path: Bytes)
    requires remote != [] && COLON !in remote
    ensures ParseToken(TokenOf(remote, path)).Ok? && ParseToken(TokenOf(remote, path)).value.remote == remote
    ensures ParseToken(TokenOf(remote, path)).value.path == PathOption(Split(path, COLON)[0])
    ensures ParseToken(TokenOf(remote, path)).value.path == PathOption(path) <==> COLON !in path
  {
    var text := remote + [COLON] + path;
    DecodeEncode(text);
    assert Decode("") == [];
    SplitAt(remote, path, COLON);
    FirstPart(path);
    var first := Split(path, COLON)[0];
    assert PathOption(first) == PathOption(path) <==> first == path;
  }

  /** A missing token, and one without a remote, are errors; a token of a remote alone has no path. */
  lemma TokenErrors(remote: Bytes, path: Bytes)
    ensures ParseToken("") == Err
    ensures ParseToken(TokenOf([], path)) == Err
    ensures remote != [] && COLON !in remote ==> ParseToken(Token(remote)) == Ok(RemotePath(remote, None))
  {
    DecodeEncode([COLON] + path);
    DecodeEncode(remote);
    SplitAt([], path, COLON);
    assert [] + [COLON] + path == [COLON] + path;
    assert Decode("") == [];
    if COLON !in remote {
      SplitNone(remote, COLON);
    }
  }

  /** For ASCII text the token stays one route segment exactly when no '?' or DEL ends a group of three bytes. */
  lemma TokenSlash(text: Bytes)
    requires Ascii(text)
    ensures '/' in Token(text) <==> exists i :: SlashAt(text, i)
  {
    StripPadding(text);
    SlashDigits(text);
    var d := DigitsOfBytes(text);
    if 63 in d {
      var i :| 0 <= i < |d| && d[i] == 63;
      assert Chars(d)[i] == '/';
    }
    forall i | 0 <= i < |d| ensures Chars(d)[i] == '/' ==> 63 in d {
      CharRoundTrip(d[i]);
    }
  }

  // ---------------------------------------------------------------- breadcrumbs

  datatype Crumb = Crumb(id: Bytes, text: Bytes, link: Option<string>)

  function Utf8(s: string): Bytes
    requires forall i :: 0 <= i < |s| ==> s[i] < 128 as char
  {
    seq(|s|, i requires 0 <= i < |s| => s[i] as int)
  }

  const HOME: Crumb := Crumb(Utf8("home"), Utf8("Home"), Some("/remotes"))

  function FolderLink(remote: Bytes, path: Bytes): string {
    "/folders/" + TokenOf(remote, path)
  }

  /** The path accumulated up to the i-th folder; an empty one is dropped when the next folder is added. */
  function LinkPath(folders: seq<Bytes>, i: nat): Bytes
    requires i < |folders|
  {
    if i == 0 || LinkPath(folders, i - 1) == [] then folders[i] else LinkPath(folders, i - 1) + [SLASH] + folders[i]
  }

  function Folders(path: Option<Bytes>): seq<Bytes> {
    match path
    case None => []
    case Some(p) => Split(p, SLASH)
  }

  /** What is shown for a folder before the last. */
  function PastCrumb(remote: Bytes, folders: seq<Bytes>, i: nat): Crumb
    requires i < |folders|
  {
    Crumb(remote + [COLON] + LinkPath(folders, i), folders[i], Some(FolderLink(remote, LinkPath(folders, i))))
  }

  /** What is shown for the open folder: no link, and an id that reads "null" when nothing comes before it. */
  function LastCrumb(remote: Bytes, folders: seq<Bytes>): Crumb
    requires folders != []
  {
    var last := |folders| - 1;
    var before := if last == 0 then Utf8("null") else LinkPath(folders, last - 1);
    Crumb(remote + [COLON] + before + [SLASH] + folders[last], folders[last], None)
  }

  function PastCrumbs(remote: Bytes, folders: seq<Bytes>, n: nat): seq<Crumb>
    requires n <= |folders|
  {
    if n == 0 then [] else PastCrumbs(remote, folders, n - 1) + [PastCrumb(remote, folders, n - 1)]
  }

  lemma {:induction false} PastCrumbAt(remote: Bytes, folders: seq<Bytes>, n: nat, i: nat)
    requires i < n <= |folders|
    ensures |PastCrumbs(remote, folders, n)| == n && PastCrumbs(remote, folders, n)[i] == PastCrumb(remote, folders, i)
    decreases n
  {
    if n > 1 {
      PastCrumbAt(remote, folders, n - 1, if i < n - 1 then i else 0);
    }
  }

  /** What is shown for the remote itself: a link when some folder is open. */
  function RemoteCrumb(at: RemotePath): Crumb {
    Crumb(at.remote, at.remote, if Folders(at.path) == [] then None else Some(FolderLink(at.remote, [])))
  }

  /** What the loop remembers: the path linked last. */
  predicate PathBefore(folders: seq<Bytes>, i: nat, path: Option<Bytes>)
    requires i <= |folders|
  {
    if i == 0 then path.None? else path.Some? && path.value == LinkPath(folders, i - 1)
  }

  lemma NextLink(folders: seq<Bytes>, i: nat, path: Option<Bytes>, link: Bytes)
    requires i < |folders| && PathBefore(folders, i, path)
    requires link == if path.Some? && path.value != [] then path.value + [SLASH] + folders[i] else folders[i]
    ensures link == LinkPath(folders, i) && PathBefore(folders, i + 1, Some(link))
  {
  }

  lemma PushPastCrumb(start: seq<Crumb>, remote: Bytes, folders: seq<Bytes>, i: nat, crumbs: seq<Crumb>, crumb: Crumb)
    requires i < |folders| && crumbs == start + PastCrumbs(remote, folders, i) && crumb == PastCrumb(remote, folders, i)
    ensures crumbs + [crumb] == start + PastCrumbs(remote, folders, i + 1)
  {
  }

  /** The loop: pushes a crumb for each of the first folders, and remembers the path linked last. */
  method PushPastCrumbs(remote: Bytes, folders: seq<Bytes>, past: nat, start: seq<Crumb>)
    returns (crumbs: seq<Crumb>, prevPath: Option<Bytes>)
    requires past <= |folders|
    ensures crumbs == start + PastCrumbs(remote, folders, past)
    ensures PathBefore(folders, past, prevPath)
  {
    crumbs, prevPath := start, None;
    for i := 0 to past
      invariant crumbs == start + PastCrumbs(remote, folders, i)
      invariant PathBefore(folders, i, prevPath)
    {
      var curLink :=
        if prevPath.Some? && prevPath.value != [] then prevPath.value + [SLASH] + folders[i] else folders[i];
      NextLink(folders, i, prevPath, curLink);
      var crumb := Crumb(remote + [COLON] + curLink, folders[i], Some(FolderLink(remote, curLink)));
      PushPastCrumb(start, remote, folders, i, crumbs, crumb);
      crumbs := crumbs + [crumb];
      prevPath := Some(curLink);
    }
  }

  method Breadcrumbs(at: RemotePath) returns (crumbs: seq<Crumb>)
    ensures crumbs == AllCrumbs(at)
    ensures WellMade(at, crumbs)
    ensures at.remote != [] && COLON !in at.remote ==> LeadRight(at, crumbs)
  {
    var folders := Folders(at.path);
    crumbs := [HOME, Crumb(at.remote, at.remote, if |folders| > 0 then Some(FolderLink(at.remote, [])) else None)];
    assert crumbs[1] == RemoteCrumb(at);
    var past := if |folders| == 0 then 0 else |folders| - 1;
    var prevPath;
    crumbs, prevPath := PushPastCrumbs(at.remote, folders, past, crumbs);
    if |folders| > 0 && folders[past] != [] {
      var shown := if prevPath.Some? then prevPath.value else Utf8("null");
      var last := Crumb(at.remote + [COLON] + shown + [SLASH] + folders[past], folders[past], None);
      assert last == LastCrumb(at.remote, folders);
      crumbs := crumbs + [last];
    }
    CrumbsAreWellMade(at, crumbs);
    if at.remote != [] && COLON !in at.remote {
      CrumbsLeadRight(at, crumbs);
    }
  }

  /** The folders of the open path, none for the remote itself. */
  function PathFolders(at: RemotePath): seq<Bytes> {
    match at.path
    case None => []
    case Some(path) => Split(path, SLASH)
  }

  /** How many crumbs stand for folders: all of them, but for a last one without a name. */
  function FolderCrumbs(folders: seq<Bytes>): nat {
    if folders != [] && folders[|folders| - 1] == [] then |folders| - 1 else |folders|
  }

  /** The crumb of folder `i` shows its name, and is a link unless the folder is the open one. */
  predicate ShowsFolder(crumbs: seq<Crumb>, folders: seq<Bytes>, i: nat)
    requires i < |folders| && 2 + i < |crumbs|
  {
    crumbs[2 + i].text == folders[i] && (crumbs[2 + i].link == None <==> i == |folders| - 1)
  }

  /** Home, the remote, and the folders by name; the open folder or remote has no link. */
  predicate WellMade(at: RemotePath, crumbs: seq<Crumb>) {
    var folders := PathFolders(at);
    && |crumbs| == 2 + FolderCrumbs(folders)
    && crumbs[0] == Crumb([104, 111, 109, 101], [72, 111, 109, 101], Some("/remotes"))
    && crumbs[1].id == at.remote && crumbs[1].text == at.remote && (folders == [] <==> crumbs[1].link == None)
    && forall i: nat :: i < FolderCrumbs(folders) ==> ShowsFolder(crumbs, folders, i)
  }

  predicate LeadsTo(link: Option<string>, to: RemotePath) {
    link.Some? && |link.value| > 9 && link.value[..9] == "/folders/" && ParseToken(link.value[9..]) == Ok(to)
  }

  /** The link of a folder before the open one leads to the path down to it, which is its id after the remote's name. */
  predicate LinksFolder(at: RemotePath, crumbs: seq<Crumb>, folders: seq<Bytes>, i: nat)
    requires i < |folders| && 2 + i < |crumbs|
  {
    && LeadsTo(crumbs[2 + i].link, RemotePath(at.remote, Some(Join(folders[..i + 1], SLASH))))
    && crumbs[2 + i].id == at.remote + [COLON] + Join(folders[..i + 1], SLASH)
  }

  /** The id of the open folder is its path, or reads "null" for the parent of one at the top. */
  function OpenId(remote: Bytes, path: Bytes): Bytes {
    if SLASH in path then remote + [COLON] + path else remote + [COLON] + [110, 117, 108, 108] + [SLASH] + path
  }

  /** The remote's link leads to the remote, and the folders' links to the folders, when the path has no colon. */
  predicate LeadRight(at: RemotePath, crumbs: seq<Crumb>)
    requires WellMade(at, crumbs)
  {
    var folders := PathFolders(at);
    && (folders != [] ==> LeadsTo(crumbs[1].link, RemotePath(at.remote, None)))
    && (at.path.Some? && COLON !in at.path.value && folders[0] != [] ==>
          && (forall i: nat :: i < |folders| - 1 ==> LinksFolder(at, crumbs, folders, i))
          && (FolderCrumbs(folders) == |folders| ==> crumbs[1 + |folders|].id == OpenId(at.remote, at.path.value)))
  }

  function PastOf(at: RemotePath): seq<Crumb> {
    PastCrumbs(at.remote, Folders(at.path), if Folders(at.path) == [] then 0 else |Folders(at.path)| - 1)
  }

  function LastOf(at: RemotePath): seq<Crumb> {
    var folders := Folders(at.path);
    if folders == [] || folders[|folders| - 1] == [] then [] else [LastCrumb(at.remote, folders)]
  }

  /** What the method returns. */
  function AllCrumbs(at: RemotePath): seq<Crumb> {
    [HOME, RemoteCrumb(at)] + PastOf(at) + LastOf(at)
  }

  lemma CrumbAt(at: RemotePath, i: nat)
    requires i < |Folders(at.path)| - 1
    ensures |AllCrumbs(at)| == 2 + FolderCrumbs(Folders(at.path))
    ensures AllCrumbs(at)[2 + i] == PastCrumb(at.remote, Folders(at.path), i)
  {
    PastCrumbAt(at.remote, Folders(at.path), |Folders(at.path)| - 1, i);
    InTheMiddle([HOME, RemoteCrumb(at)], PastOf(at), LastOf(at), i);
  }

  lemma InTheMiddle(a: seq<Crumb>, b: seq<Crumb>, c: seq<Crumb>, i: nat)
    requires i < |b|
    ensures |a + b + c| == |a| + |b| + |c| && (a + b + c)[|a| + i] == b[i]
  {
  }

  lemma AllCrumbsLength(at: RemotePath)
    ensures |AllCrumbs(at)| == 2 + FolderCrumbs(Folders(at.path))
    ensures AllCrumbs(at)[0] == HOME && AllCrumbs(at)[1] == RemoteCrumb(at)
    ensures var folders := Folders(at.path);
            folders != [] && folders[|folders| - 1] != [] ==>
              AllCrumbs(at)[1 + |folders|] == LastCrumb(at.remote, folders)
  {
    var folders := Folders(at.path);
    if |folders| > 1 {
      PastCrumbAt(at.remote, folders, |folders| - 1, 0);
    }
  }

  lemma HomeBytes()
    ensures Utf8("home") == [104, 111, 109, 101] && Utf8("Home") == [72, 111, 109, 101]
        && Utf8("null") == [110, 117, 108, 108]
  {
  }

  lemma CrumbsAreWellMade(at: RemotePath, crumbs: seq<Crumb>)
    requires crumbs == AllCrumbs(at)
    ensures WellMade(at, crumbs)
  {
    var folders := PathFolders(at);
    HomeBytes();
    AllCrumbsLength(at);
    forall i: nat | i < FolderCrumbs(folders) ensures ShowsFolder(crumbs, folders, i) {
      if i < |folders| - 1 {
        CrumbAt(at, i);
      }
    }
  }

  lemma LinkLeads(remote: Bytes, path: Bytes)
    requires remote != [] && COLON !in remote && COLON !in path
    ensures LeadsTo(Some(FolderLink(remote, path)), RemotePath(remote, PathOption(path)))
  {
    TokenRoundTrip(remote, path);
    var link := FolderLink(remote, path);
    assert link[..9] == "/folders/" && link[9..] == TokenOf(remote, path);
  }

  lemma CrumbsLeadRight(at: RemotePath, crumbs: seq<Crumb>)
    requires crumbs == AllCrumbs(at) && WellMade(at, crumbs) && at.remote != [] && COLON !in at.remote
    ensures LeadRight(at, crumbs)
  {
    var folders := PathFolders(at);
    AllCrumbsLength(at);
    LinkLeads(at.remote, []);
    if at.path.Some? && COLON !in at.path.value && folders[0] != [] {
      forall i: nat | i < |folders| - 1 ensures LinksFolder(at, crumbs, folders, i) {
        CrumbAt(at, i);
        FolderCrumbLeads(at.remote, at.path.value, i);
      }
      LastCrumbId(at.remote, at.path.value);
    }
  }

  lemma FolderCrumbLeads(remote: Bytes, path: Bytes, i: nat)
    requires remote != [] && COLON !in remote && COLON !in path
    requires i < |Split(path, SLASH)| - 1 && Split(path, SLASH)[0] != []
    ensures var folders, crumb := Split(path, SLASH), PastCrumb(remote, Split(path, SLASH), i);
            && LeadsTo(crumb.link, RemotePath(remote, Some(Join(folders[..i + 1], SLASH))))
            && crumb.id == remote + [COLON] + Join(folders[..i + 1], SLASH)
  {
    var folders := Split(path, SLASH);
    SplitJoin(path, SLASH);
    LinkPathJoins(folders, i);
    FolderLinkLeadsThere(remote, path, i);
    var link := FolderLink(remote, LinkPath(folders, i));
    assert link[..9] == "/folders/" && link[9..] == TokenOf(remote, LinkPath(folders, i));
  }

  lemma IdIsPath(remote: Bytes, before: Bytes, last: Bytes)
    ensures remote + [COLON] + before + [SLASH] + last == remote + [COLON] + (before + [SLASH] + last)
  {
  }

  lemma {:induction false} SplitCount(path: Bytes)
    ensures |Split(path, SLASH)| > 1 <==> SLASH in path
  {
    if path != [] {
      SplitCount(path[1..]);
    }
  }

  lemma WholePath(path: Bytes)
    requires |Split(path, SLASH)| > 1 && Split(path, SLASH)[0] != []
    ensures var folders := Split(path, SLASH);
            LinkPath(folders, |folders| - 2) + [SLASH] + folders[|folders| - 1] == path
  {
    var folders := Split(path, SLASH);
    var last := |folders| - 1;
    SplitJoin(path, SLASH);
    LinkPathJoins(folders, last - 1);
    JoinSnoc(folders[..last], folders[last], SLASH);
    assert folders == folders[..last] + [folders[last]];
  }

  lemma LastCrumbId(remote: Bytes, path: Bytes)
    requires Split(path, SLASH)[0] != []
    ensures LastCrumb(remote, Split(path, SLASH)).id == OpenId(remote, path)
  {
    var folders := Split(path, SLASH);
    SplitCount(path);
    if SLASH in path {
      WholePath(path);
      IdIsPath(remote, LinkPath(folders, |folders| - 2), folders[|folders| - 1]);
    } else {
      HomeBytes();
      SplitNone(path, SLASH);
    }
  }

  lemma {:induction false} LinkPathJoins(folders: seq<Bytes>, i: nat)
    requires i < |folders| && folders[0] != []
    ensures LinkPath(folders, i) == Join(folders[..i + 1], SLASH) && LinkPath(folders, i) != []
    decreases i
  {
    if i == 0 {
      assert folders[..1] == [folders[0]];
    } else {
      LinkPathJoins(folders, i - 1);
      assert folders[..i + 1] == folders[..i] + [folders[i]];
      JoinSnoc(folders[..i], folders[i], SLASH);
    }
  }

  /**
    Every folder link is the path so far, exactly when the path does not begin with a slash or has one folder link
    at most.
   */
  lemma LinksArePrefixes(folders: seq<Bytes>)
    requires |folders| > 0
    ensures (forall i :: 0 <= i < |folders| - 1 ==> LinkPath(folders, i) == Join(folders[..i + 1], SLASH))
       <==> folders[0] != [] || |folders| <= 2
  {
    if folders[0] != [] {
      forall i | 0 <= i < |folders| - 1 ensures LinkPath(folders, i) == Join(folders[..i + 1], SLASH) {
        LinkPathJoins(folders, i);
      }
    } else if |folders| > 2 {
      assert folders[..2] == [folders[0], folders[1]];
      assert folders[..2][1..] == [folders[1]];
      assert LinkPath(folders, 1) == folders[1];
      assert |Join(folders[..2], SLASH)| == |folders[1]| + 1;
    } else if |folders| == 2 {
      assert folders[..1] == [folders[0]];
    }
  }

  /** The i-th folder link leads to the first i + 1 folders of the remote. */
  lemma FolderLinkLeadsThere(remote: Bytes, path: Bytes, i: nat)
    requires remote != [] && COLON !in remote && COLON !in path
    requires i < |Split(path, SLASH)| - 1 && Split(path, SLASH)[0] != []
    ensures var folders := Split(path, SLASH);
            ParseToken(TokenOf(remote, LinkPath(folders, i)))
              == Ok(RemotePath(remote, Some(Join(folders[..i + 1], SLASH))))
  {
    var folders := Split(path, SLASH);
    SplitJoin(path, SLASH);
    LinkPathJoins(folders, i);
    JoinHasNo(folders, SLASH, COLON, i);
    TokenRoundTrip(remote, LinkPath(folders, i));
  }
}

/** The PKCE strings of the login page. */
module Pkce {
  import opened Prelude
  import opened Base64

  function HexDigit(d: int): char
    requires 0 <= d < 16
  {
    if d < 10 then ('0' as int + d) as char else ('a' as int + d - 10) as char
  }

  function Hex(n: nat): string {
    if n < 16 then [HexDigit(n)] else Hex(n / 16) + [HexDigit(n % 16)]
  }

  /** JavaScript's substring: a negative start counts as zero. */
  function Substring(s: string, start: int): string {
    if start <= 0 then s else if start >= |s| then "" else s[start..]
  }

  function Chunk(n: nat): string {
    Substring("0" + Hex(n), -2)
  }

  function Verifier(words: seq<nat>): string {
    if words == [] then "" else Chunk(words[0]) + Verifier(words[1..])
  }

  function HexLength(words: seq<nat>): nat {
    if words == [] then 0 else |Hex(words[0])| + HexLength(words[1..])
  }

  /** The number a string of hexadecimal digits stands for. */
  function ReadHex(s: string): nat {
    if s == "" then 0
    else
      var c := s[|s| - 1];
      16 * ReadHex(s[..|s| - 1]) + if '0' <= c <= '9' then c as int - '0' as int
                                   else if 'a' <= c <= 'f' then c as int - 'a' as int + 10 else 0
  }

  /** The hexadecimal of a number reads back to it, and has no leading zero. */
  lemma {:induction false} HexReadsBack(n: nat)
    ensures ReadHex(Hex(n)) == n
    ensures Hex(n) != "" && (Hex(n)[0] == '0' ==> n == 0)
  {
    if n < 16 {
      assert Hex(n)[..0] == "";
    } else {
      HexReadsBack(n / 16);
      assert Hex(n)[..|Hex(n)| - 1] == Hex(n / 16);
    }
  }

  /** A verifier is the words in order, each as a zero and its hexadecimal. */
  lemma {:induction false} VerifierReads(words: seq<nat>, i: nat)
    requires i < |words|
    ensures Verifier(words) == Verifier(words[..i]) + ("0" + Hex(words[i])) + Verifier(words[i + 1..])
    decreases i
  {
    if i == 0 {
      assert words[..0] == [];
    } else {
      VerifierReads(words[1..], i - 1);
      assert words[..i][1..] == words[1..][..i - 1] && words[1..][i..] == words[i + 1..];
      Assoc3(Chunk(words[0]), Verifier(words[1..][..i - 1]), "0" + Hex(words[i]), Verifier(words[i + 1..]));
    }
  }

  lemma Assoc3(a: string, b: string, c: string, d: string)
    ensures a + (b + c + d) == (a + b) + c + d
  {
  }

  predicate IsHex(c: char) {
    '0' <= c <= '9' || 'a' <= c <= 'f'
  }

  function Pow16(k: nat): nat {
    if k == 0 then 1 else 16 * Pow16(k - 1)
  }

  lemma {:induction false} HexShape(n: nat, k: nat)
    requires k > 0 && n < Pow16(k)
    ensures 1 <= |Hex(n)| <= k && forall c :: c in Hex(n) ==> IsHex(c)
    decreases k
  {
    if n >= 16 {
      HexShape(n / 16, k - 1);
    }
  }

  lemma {:induction false} VerifierShape(words: seq<nat>)
    requires forall i :: 0 <= i < |words| ==> words[i] < 0x1_0000_0000
    ensures |Verifier(words)| == |words| + HexLength(words)
    ensures |words| <= HexLength(words) <= 8 * |words|
    ensures forall c :: c in Verifier(words) ==> IsHex(c)
  {
    if words != [] {
      assert Pow16(8) == 0x1_0000_0000 by {
        assert Pow16(4) == 0x1_0000;
      }
      HexShape(words[0], 8);
      VerifierShape(words[1..]);
    }
  }

  /**
    A verifier of 56 random words has 56 characters more than its words have hex digits, so from 112 to 504,
    and is within the 43 to 128 characters of section 4.1 of RFC 7636 exactly when the words have at most 72.
   */
  lemma VerifierLength(words: seq<nat>)
    requires |words| == 56 && forall i :: 0 <= i < |words| ==> words[i] < 0x1_0000_0000
    ensures |Verifier(words)| == 56 + HexLength(words) && 112 <= |Verifier(words)| <= 504
    ensures 43 <= |Verifier(words)| <= 128 <==> HexLength(words) <= 72
    ensures forall c :: c in Verifier(words) ==> IsHex(c)
  {
    VerifierShape(words);
  }

  function UrlChar(c: char): char {
    if c == '+' then '-' else if c == '/' then '_' else c
  }

  function UrlSafe(s: string): string {
    seq(|s|, i requires 0 <= i < |s| => UrlChar(s[i]))
  }

  function TrimPadding(s: string): string {
    if s != "" && s[|s| - 1] == '=' then TrimPadding(s[..|s| - 1]) else s
  }

  function Base64UrlEncode(b: Bytes): string {
    TrimPadding(UrlSafe(Encode(b)))
  }

  predicate Unreserved(c: char) {
    'A' <= c <= 'Z' || 'a' <= c <= 'z' || '0' <= c <= '9' || c == '-' || c == '_'
  }

  lemma {:induction false} UrlDigits(d: seq<Digit>)
    ensures DigitsOfText(UrlSafe(Chars(d))) == d
    ensures forall c :: c in UrlSafe(Chars(d)) ==> Unreserved(c)
  {
    if d != [] {
      CharRoundTrip(d[0]);
      var s := UrlSafe(Chars(d));
      assert s[0] == UrlChar(CharOf(d[0])) && s[1..] == UrlSafe(Chars(d[1..]));
      assert DigitOf(s[0]) == Some(d[0]);
      UrlDigits(d[1..]);
    }
  }

  lemma TrimsOne(s: string)
    ensures TrimPadding(s + "=") == TrimPadding(s)
  {
  }

  lemma TrimsPadding(s: string, n: nat)
    requires s == "" || s[|s| - 1] != '='
    ensures TrimPadding(s + Padding(n)) == s
  {
    TrimsOne(s);
    TrimsOne(s + "=");
    assert s + "" == s && s + "==" == s + "=" + "=";
  }

  /** A code challenge is unpadded base64url of the digest: it decodes back, and for 32 bytes has 43 characters. */
  lemma ChallengeRoundTrip(digest: Bytes)
    ensures Decode(Base64UrlEncode(digest)) == digest
    ensures forall c :: c in Base64UrlEncode(digest) ==> Unreserved(c)
    ensures |digest| == 32 ==> |Base64UrlEncode(digest)| == 43
  {
    var d := DigitsOfBytes(digest);
    var p := Padding(|digest|);
    DigitsRoundTrip(digest);
    UrlDigits(d);
    assert UrlSafe(p) == p;
    assert UrlSafe(Encode(digest)) == UrlSafe(Chars(d)) + p;
    var s := UrlSafe(Chars(d));
    assert s != "" ==> s[|s| - 1] in s;
    TrimsPadding(s, |digest|);
  }
}
