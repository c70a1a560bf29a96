/** services/signed_url_service.py prints a signed link, routers/files.py parses and verifies it. A text is its UTF-8 bytes, one
    character below 256 each; percent-encoding is that of section 2.1 of RFC 3986. */
module SignedUrl {
  import opened Common

  type Byte = c: char | c as int < 256

  type Text = seq<Byte>

  /** HMAC-SHA256 in hex under the secret key, str() of an integer and int() of a text. */
  datatype Python = Python(sign: Text -> Text, str: int -> Text, parse: Text -> Option<int>)

  /** int() reads back what str() prints, which holds no colon; the MAC is never empty. */
  ghost predicate Lawful(py: Python) {
    && (forall n :: py.parse(py.str(n)) == Some(n) && ':' !in py.str(n) && py.str(n) != [])
    && (forall payload :: py.sign(payload) != [])
  }

  ghost predicate CollisionFree(py: Python) {
    forall a, b :: py.sign(a) == py.sign(b) ==> a == b
  }

  // ----- percent-encoding -----

  predicate Unreserved(c: Byte) {
    'a' <= c <= 'z' || 'A' <= c <= 'Z' || '0' <= c <= '9' || c == '-' || c == '.' || c == '_' || c == '~'
  }

  /** The codes of letters, digits, hyphen, period, underscore and tilde, section 2.3 of RFC 3986. */
  lemma UnreservedIff(c: Byte)
    ensures var n := c as int;
            Unreserved(c) <==> 65 <= n <= 90 || 97 <= n <= 122 || 48 <= n <= 57 || n == 45 || n == 46 || n == 95 || n == 126
  {
  }

  function HexDigit(n: nat): Byte
    requires n < 16
  {
    if n < 10 then '0' + n as char else 'A' + (n - 10) as char
  }

  function HexValue(c: Byte): (value: Option<nat>)
    ensures value.Some? ==> value.value < 16
  {
    if '0' <= c <= '9' then Some(c as int - '0' as int)
    else if 'A' <= c <= 'F' then Some(c as int - 'A' as int + 10)
    else if 'a' <= c <= 'f' then Some(c as int - 'a' as int + 10)
    else None
  }

  /** A hex digit of either case, by its code. */
  lemma HexValueIff(c: Byte, n: nat)
    ensures HexValue(c) == Some(n) <==>
            (n < 10 && c as int == 48 + n) || (10 <= n < 16 && (c as int == 55 + n || c as int == 87 + n))
  {
  }

  function Encoded(c: Byte, safe: set<Byte>): Text {
    if Unreserved(c) || c in safe then [c] else ['%', HexDigit(c as int / 16), HexDigit(c as int % 16)]
  }

  function Quote(s: Text, safe: set<Byte>): Text {
    if s == [] then [] else Encoded(s[0], safe) + Quote(s[1..], safe)
  }

  /** A percent sign without two hex digits after it stays as it is. */
  function Unquote(s: Text): Text {
    if s == [] then []
    else if s[0] == '%' && |s| >= 3 && HexValue(s[1]).Some? && HexValue(s[2]).Some?
    then [(16 * HexValue(s[1]).value + HexValue(s[2]).value) as char] + Unquote(s[3..])
    else [s[0]] + Unquote(s[1..])
  }

  function Replace(s: Text, from: Byte, to: Byte): (r: Text)
    ensures |r| == |s| && forall i :: 0 <= i < |s| ==> r[i] == if s[i] == from then to else s[i]
  {
    seq(|s|, i requires 0 <= i < |s| => if s[i] == from then to else s[i])
  }

  function QuotePlus(s: Text): Text {
    Replace(Quote(s, {' '}), ' ', '+')
  }

  function UnquotePlus(s: Text): Text {
    Unquote(Replace(s, '+', ' '))
  }

  lemma HexRoundTrip(n: nat)
    requires n < 16
    ensures HexValue(HexDigit(n)) == Some(n) && Unreserved(HexDigit(n))
  {
  }

  lemma UnquoteEncoded(c: Byte, safe: set<Byte>, rest: Text)
    requires '%' !in safe
    ensures Unquote(Encoded(c, safe) + rest) == [c] + Unquote(rest)
  {
    var s := Encoded(c, safe) + rest;
    if Unreserved(c) || c in safe {
      assert s[1..] == rest;
    } else {
      HexRoundTrip(c as int / 16);
      HexRoundTrip(c as int % 16);
      assert s[3..] == rest;
    }
  }

  lemma {:induction false} UnquoteQuote(s: Text, safe: set<Byte>)
    requires '%' !in safe
    ensures Unquote(Quote(s, safe)) == s
  {
    if s != [] {
      UnquoteEncoded(s[0], safe, Quote(s[1..], safe));
      UnquoteQuote(s[1..], safe);
    }
  }

  lemma {:induction false} QuotedCharacters(s: Text, safe: set<Byte>)
    ensures forall c :: c in Quote(s, safe) ==> Unreserved(c) || c in safe || c == '%'
  {
    if s != [] {
      QuotedCharacters(s[1..], safe);
      HexRoundTrip(s[0] as int / 16);
      HexRoundTrip(s[0] as int % 16);
    }
  }

  lemma UnquotePlusQuotePlus(s: Text)
    ensures UnquotePlus(QuotePlus(s)) == s
    ensures forall c :: c in QuotePlus(s) ==> Unreserved(c) || c == '%' || c == '+'
    ensures QuotePlus(s) == [] <==> s == []
  {
    var q := Quote(s, {' '});
    QuotedCharacters(s, {' '});
    assert forall i :: 0 <= i < |q| ==> q[i] in q;
    assert Replace(Replace(q, ' ', '+'), '+', ' ') == q;
    UnquoteQuote(s, {' '});
  }

  // ----- the printer -----

  function LeftStrip(s: Text, c: Byte): (r: Text)
    ensures r == [] || r[0] != c
    ensures (s == [] || s[0] != c) ==> r == s
  {
    if s != [] && s[0] == c then LeftStrip(s[1..], c) else s
  }

  function Normalize(path: Text): Text {
    Replace(LeftStrip(path, '/'), '\\', '/')
  }

  function Payload(py: Python, path: Text, uid: Text, expires: int): Text {
    path + [':'] + uid + [':'] + py.str(expires)
  }

  const KeyUid: Text := ['u', 'i', 'd']
  const KeyExpires: Text := ['e', 'x', 'p', 'i', 'r', 'e', 's']
  const KeySig: Text := ['s', 'i', 'g']

  function Pair(key: Text, value: Text): Text {
    key + ['='] + QuotePlus(value)
  }

  /** urlencode of the three parameters. */
  function Query(py: Python, uid: Text, expires: int, sig: Text): Text {
    Pair(KeyUid, uid) + ['&'] + Pair(KeyExpires, py.str(expires)) + ['&'] + Pair(KeySig, sig)
  }

  const Prefix: Text := ['/', 'f', 'i', 'l', 'e', 's', '/']

  function PathPart(clean: Text): Text {
    Prefix + Quote(clean, {'/'})
  }

  function GenerateSignedUrl(py: Python, path: Text, uid: Text, now: int, expiresIn: int): Text {
    var clean := Normalize(path);
    var expires := now + expiresIn;
    PathPart(clean) + ['?'] + Query(py, uid, expires, py.sign(Payload(py, clean, uid, expires)))
  }

  // ----- the parser -----

  datatype Request = Request(path: Text, uid: Text, expires: int, sig: Text)

  /** parse_qs drops parameters without a value; `params.get(name)[0]` is the first that is left. */
  function FirstValue(parts: seq<Text>, name: Text): Option<Text> {
    if parts == [] then None
    else
      var (key, value) := Cut<Byte>(parts[0], '=');
      if value.Some? && value.value != [] && UnquotePlus(key) == name then Some(UnquotePlus(value.value))
      else FirstValue(parts[1..], name)
  }

  function Param(query: Text, name: Text, otherwise: Text): Text {
    var value := FirstValue(SplitOn<Byte>(query, '&'), name);
    if value.Some? then value.value else otherwise
  }

  /** The parts of X-Original-URI that verify_file_signature uses; None where it refuses before looking at the signature. */
  function ParseRequest(py: Python, uri: Text): Option<Request> {
    var (path, query) := Cut<Byte>(Cut<Byte>(uri, '#').0, '?');
    ParseParts(py, path, if query.Some? then query.value else [])
  }

  function ParseParts(py: Python, path: Text, query: Text): Option<Request> {
    if !(Prefix <= path) || IsVideo(Unquote(path[|Prefix|..])) then None
    else
      var expires := py.parse(Param(query, KeyExpires, ['0']));
      var uid, sig := Param(query, KeyUid, []), Param(query, KeySig, []);
      if expires.None? || uid == [] || sig == [] then None
      else Some(Request(Unquote(path[|Prefix|..]), uid, expires.value, sig))
  }

  predicate IsVideo(path: Text) {
    Cut<Byte>(path, '/').0 == ['v', 'i', 'd', 'e', 'o', 's']
  }

  predicate VerifySignedUrl(py: Python, request: Request, now: int) {
    now < request.expires && py.sign(Payload(py, Normalize(request.path), request.uid, request.expires)) == request.sig
  }

  /** None is 403; a value is the X-Signed-TTL of the 200. */
  function VerifyFileSignature(py: Python, uri: Text, now: int): Option<int> {
    var request := ParseRequest(py, uri);
    if request.Some? && VerifySignedUrl(py, request.value, now) then Some(Max(request.value.expires - now, 0)) else None
  }

  // ----- print, then parse -----

  lemma ValueOf(key: Text, value: Text)
    requires '=' !in key && '%' !in key && '+' !in key
    ensures Cut<Byte>(key + ['='] + QuotePlus(value), '=') == (key, Some(QuotePlus(value)))
    ensures UnquotePlus(key) == key
  {
    CutAt<Byte>(key, '=', QuotePlus(value));
    assert Replace(key, '+', ' ') == key;
    UnquotePlain(key);
  }

  lemma {:induction false} UnquotePlain(s: Text)
    requires '%' !in s
    ensures Unquote(s) == s
  {
    if s != [] {
      UnquotePlain(s[1..]);
      assert s[0] in s && [s[0]] + s[1..] == s;
    }
  }

  predicate QueryCharacter(c: Byte) {
    Unreserved(c) || c == '%' || c == '+' || c == '='
  }

  lemma PairCharacters(key: Text, value: Text)
    requires forall c :: c in key ==> Unreserved(c)
    ensures forall c :: c in Pair(key, value) ==> QueryCharacter(c)
  {
    UnquotePlusQuotePlus(value);
  }

  lemma KeysArePlain()
    ensures forall c :: c in KeyUid || c in KeyExpires || c in KeySig ==> Unreserved(c)
    ensures KeyUid != KeyExpires && KeyUid != KeySig && KeyExpires != KeySig
  {
    assert |KeyUid| == 3 && |KeyExpires| == 7 && KeyUid[0] == 'u' && KeySig[0] == 's';
  }

  lemma QueryParts(py: Python, uid: Text, expires: int, sig: Text)
    ensures SplitOn<Byte>(Query(py, uid, expires, sig), '&') == [Pair(KeyUid, uid), Pair(KeyExpires, py.str(expires)), Pair(KeySig, sig)]
  {
    KeysArePlain();
    PairCharacters(KeyUid, uid);
    PairCharacters(KeyExpires, py.str(expires));
    PairCharacters(KeySig, sig);
    ThreeParts(Pair(KeyUid, uid), Pair(KeyExpires, py.str(expires)), Pair(KeySig, sig));
  }

  lemma QueryCharacters(py: Python, uid: Text, expires: int, sig: Text)
    ensures forall c :: c in Query(py, uid, expires, sig) ==> QueryCharacter(c) || c == '&'
  {
    KeysArePlain();
    PairCharacters(KeyUid, uid);
    PairCharacters(KeyExpires, py.str(expires));
    PairCharacters(KeySig, sig);
  }

  lemma ThreeParts(a: Text, b: Text, c: Text)
    requires '&' !in a && '&' !in b && '&' !in c
    ensures SplitOn<Byte>(a + ['&'] + b + ['&'] + c, '&') == [a, b, c]
  {
    SplitPlain<Byte>(a, '&');
    SplitSnoc<Byte>(a, '&', b);
    SplitSnoc<Byte>(a + ['&'] + b, '&', c);
  }

  lemma FirstOf(parts: seq<Text>, key: Text, value: Text, name: Text)
    requires parts != [] && parts[0] == Pair(key, value) && forall c :: c in key ==> Unreserved(c)
    ensures FirstValue(parts, name) == if value != [] && key == name then Some(value) else FirstValue(parts[1..], name)
  {
    ValueOf(key, value);
    UnquotePlusQuotePlus(value);
  }

  lemma QueryValues(py: Python, uid: Text, expires: int, sig: Text)
    requires Lawful(py) && sig != []
    ensures var q := Query(py, uid, expires, sig);
            && Param(q, KeyUid, []) == uid && Param(q, KeySig, []) == sig
            && Param(q, KeyExpires, ['0']) == py.str(expires)
  {
    var parts: seq<Text> := SplitOn<Byte>(Query(py, uid, expires, sig), '&');
    QueryParts(py, uid, expires, sig);
    assert parts[1..][1..] == parts[2..];
    var rest: seq<Text> := parts[3..];
    assert parts[2..][1..] == rest;
    assert py.parse(py.str(expires)) == Some(expires);
    KeysArePlain();
    forall name: Text | name == KeyUid || name == KeyExpires || name == KeySig
      ensures FirstValue(parts, name) ==
              if name == KeyUid then (if uid == [] then None else Some(uid))
              else if name == KeySig then Some(sig) else Some(py.str(expires))
    {
      FirstOf(parts, KeyUid, uid, name);
      FirstOf(parts[1..], KeyExpires, py.str(expires), name);
      FirstOf(parts[2..], KeySig, sig, name);
    }
  }

  /** A text with no question mark before the query and no fragment falls into path and query. */
  lemma ParseSplit(py: Python, head: Text, query: Text)
    requires '?' !in head && '#' !in head && '#' !in query
    ensures ParseRequest(py, head + ['?'] + query) == ParseParts(py, head, query)
  {
    PathAndQuery(head, query);
  }

  lemma PathDecodes(clean: Text)
    ensures Prefix <= PathPart(clean) && Unquote(PathPart(clean)[|Prefix|..]) == clean
  {
    assert PathPart(clean)[|Prefix|..] == Quote(clean, {'/'});
    UnquoteQuote(clean, {'/'});
  }

  lemma PathAndQuery(head: Text, query: Text)
    requires '?' !in head && '#' !in head && '#' !in query
    ensures var url := head + ['?'] + query;
            Cut<Byte>(url, '#') == (url, None) && Cut<Byte>(url, '?') == (head, Some(query))
  {
    CutAt<Byte>(head, '?', query);
    CutNowhere<Byte>(head + ['?'] + query, '#');
  }

  lemma PathCharacters(clean: Text)
    ensures forall c :: c in PathPart(clean) ==> Unreserved(c) || c == '/' || c == '%'
  {
    QuotedCharacters(clean, {'/'});
    assert forall c :: c in Prefix ==> Unreserved(c) || c == '/';
    assert PathPart(clean) == Prefix + Quote(clean, {'/'});
  }

  /** Parsing a generated link gives back the normal path, the uid and the expiry, whatever characters they hold; it is
      refused outright exactly for videos and for an empty uid. */
  lemma ParseOfGenerated(py: Python, path: Text, uid: Text, now: int, expiresIn: int)
    requires Lawful(py)
    ensures var clean, expires := Normalize(path), now + expiresIn;
            ParseRequest(py, GenerateSignedUrl(py, path, uid, now, expiresIn))
            == if IsVideo(clean) || uid == [] then None
               else Some(Request(clean, uid, expires, py.sign(Payload(py, clean, uid, expires))))
  {
    var clean, expires := Normalize(path), now + expiresIn;
    ParseOfClean(py, clean, uid, expires, py.sign(Payload(py, clean, uid, expires)));
  }

  lemma ParseOfClean(py: Python, clean: Text, uid: Text, expires: int, sig: Text)
    requires Lawful(py) && sig != []
    ensures ParseRequest(py, PathPart(clean) + ['?'] + Query(py, uid, expires, sig))
            == if IsVideo(clean) || uid == [] then None else Some(Request(clean, uid, expires, sig))
  {
    NoMarks(py, clean, uid, expires, sig);
    ParseSplit(py, PathPart(clean), Query(py, uid, expires, sig));
    PartsOfGenerated(py, clean, uid, expires, sig);
  }

  lemma NoMarks(py: Python, clean: Text, uid: Text, expires: int, sig: Text)
    ensures '?' !in PathPart(clean) && '#' !in PathPart(clean) && '#' !in Query(py, uid, expires, sig)
  {
    PathCharacters(clean);
    QueryCharacters(py, uid, expires, sig);
  }

  lemma PartsOfGenerated(py: Python, clean: Text, uid: Text, expires: int, sig: Text)
    requires Lawful(py) && sig != []
    ensures ParseParts(py, PathPart(clean), Query(py, uid, expires, sig))
            == if IsVideo(clean) || uid == [] then None else Some(Request(clean, uid, expires, sig))
  {
    QueryValues(py, uid, expires, sig);
    PathDecodes(clean);
    assert py.parse(py.str(expires)) == Some(expires);
  }

  lemma NormalTwice(path: Text)
    ensures Normalize(Normalize(path)) == Normalize(path) <==> Normalize(path) == [] || Normalize(path)[0] != '/'
  {
    var clean := Normalize(path);
    assert Replace(clean, '\\', '/') == clean;
    if clean != [] && clean[0] == '/' {
      assert Normalize(clean) == [] || Normalize(clean)[0] != '/' by {
        StripKeepsPlain(clean);
      }
    }
  }

  lemma {:induction false} StripKeepsPlain(s: Text)
    requires '\\' !in s
    ensures '\\' !in LeftStrip(s, '/')
  {
    if s != [] && s[0] == '/' {
      StripKeepsPlain(s[1..]);
    }
  }

  lemma PathOfPayload(py: Python, a: Text, b: Text, uid: Text, expires: int)
    ensures Payload(py, a, uid, expires) == Payload(py, b, uid, expires) <==> a == b
  {
    var tail := [':'] + uid + [':'] + py.str(expires);
    assert Payload(py, a, uid, expires) == a + tail && Payload(py, b, uid, expires) == b + tail;
    if a + tail == b + tail {
      assert |a| == |b|;
      assert (a + tail)[..|a|] == a && (b + tail)[..|b|] == b;
    }
  }

  lemma CleanVerifies(py: Python, path: Text, uid: Text, expires: int, now: int)
    requires CollisionFree(py)
    ensures var clean := Normalize(path);
            VerifySignedUrl(py, Request(clean, uid, expires, py.sign(Payload(py, clean, uid, expires))), now)
            <==> now < expires && (clean == [] || clean[0] != '/')
  {
    var clean := Normalize(path);
    NormalTwice(path);
    PathOfPayload(py, Normalize(clean), clean, uid, expires);
  }

  lemma AnswerOf(py: Python, uri: Text, request: Option<Request>, now: int)
    requires ParseRequest(py, uri) == request
    ensures var answer := VerifyFileSignature(py, uri, now);
            && (answer.Some? <==> request.Some? && VerifySignedUrl(py, request.value, now))
            && (answer.Some? ==> answer.value == request.value.expires - now > 0)
  {
  }

  /** A generated link verifies exactly before its expiry, for a uid and a path outside videos whose normal form does not
      begin with a slash; the answer carries the seconds left. A path like "\x" normalizes to "/x", which the verifier
      normalizes once more, so its link never works. */
  lemma GeneratedLinkVerifies(py: Python, path: Text, uid: Text, minted: int, expiresIn: int, now: int)
    requires Lawful(py) && CollisionFree(py)
    ensures var clean := Normalize(path);
            var answer := VerifyFileSignature(py, GenerateSignedUrl(py, path, uid, minted, expiresIn), now);
            && (answer.Some? <==> now < minted + expiresIn && !IsVideo(clean) && uid != [] && (clean == [] || clean[0] != '/'))
            && (answer.Some? ==> answer.value == minted + expiresIn - now > 0)
  {
    var clean, expires := Normalize(path), minted + expiresIn;
    var sig := py.sign(Payload(py, clean, uid, expires));
    var request := if IsVideo(clean) || uid == [] then None else Some(Request(clean, uid, expires, sig));
    ParseOfGenerated(py, path, uid, minted, expiresIn);
    CleanVerifies(py, path, uid, expires, now);
    AnswerOf(py, GenerateSignedUrl(py, path, uid, minted, expiresIn), request, now);
  }

  // ----- what a signature stands for -----

  lemma LastColon(head: Text, tail: Text, head': Text, tail': Text)
    requires ':' !in tail && ':' !in tail' && head + [':'] + tail == head' + [':'] + tail'
    ensures head == head' && tail == tail'
  {
    SplitSnoc<Byte>(head, ':', tail);
    SplitSnoc<Byte>(head', ':', tail');
    var s := head + [':'] + tail;
    assert SplitOn<Byte>(s, ':')[|SplitOn<Byte>(s, ':')| - 1] == tail;
    assert |head| == |head'|;
    assert s[..|head|] == head && (head' + [':'] + tail')[..|head'|] == head';
  }

  /** With user ids free of colons a payload names one path, one user and one expiry, though paths may hold colons. */
  lemma PayloadDetermines(py: Python, path: Text, uid: Text, expires: int, path': Text, uid': Text, expires': int)
    requires Lawful(py) && ':' !in uid && ':' !in uid'
    ensures Payload(py, path, uid, expires) == Payload(py, path', uid', expires') <==>
            path == path' && uid == uid' && expires == expires'
  {
    if Payload(py, path, uid, expires) == Payload(py, path', uid', expires') {
      assert ':' !in py.str(expires) && ':' !in py.str(expires');
      LastColon(path + [':'] + uid, py.str(expires), path' + [':'] + uid', py.str(expires'));
      LastColon(path, uid, path', uid');
      assert py.parse(py.str(expires)) == Some(expires) && py.parse(py.str(expires')) == Some(expires');
    }
  }

  /** So a signature issued for one file, user and expiry is accepted, in any request, for that file, user and expiry only. */
  lemma SignatureIsNotTransferable(py: Python, path: Text, uid: Text, expires: int, request: Request, now: int)
    requires Lawful(py) && CollisionFree(py) && ':' !in uid && ':' !in request.uid
    requires request.sig == py.sign(Payload(py, path, uid, expires)) && VerifySignedUrl(py, request, now)
    ensures Normalize(request.path) == path && request.uid == uid && request.expires == expires && now < expires
  {
    PayloadDetermines(py, Normalize(request.path), request.uid, request.expires, path, uid, expires);
  }

  /** A colon in a user id would let one signature stand for two requests. */
  lemma ColonUidCollides(py: Python, path: Text, uid: Text, extra: Text, expires: int)
    ensures Payload(py, path, extra + [':'] + uid, expires) == Payload(py, path + [':'] + extra, uid, expires)
  {
    assert path + [':'] + (extra + [':'] + uid) == path + [':'] + extra + [':'] + uid;
  }

  // ----- normal paths, videos -----

  /** The normal path is what follows the slashes at the front, every backslash made a slash. */
  lemma {:induction false} NormalForm(path: Text) returns (slashes: nat)
    ensures slashes <= |path| && (forall i :: 0 <= i < slashes ==> path[i] == '/') && (slashes == |path| || path[slashes] != '/')
    ensures |Normalize(path)| == |path| - slashes
    ensures forall i :: 0 <= i < |Normalize(path)| ==> Normalize(path)[i] == if path[slashes + i] == '\\' then '/' else path[slashes + i]
  {
    if path == [] || path[0] != '/' {
      slashes := 0;
    } else {
      var rest := NormalForm(path[1..]);
      slashes := rest + 1;
      assert Normalize(path) == Normalize(path[1..]);
    }
  }

  const Videos: Text := ['v', 'i', 'd', 'e', 'o', 's']

  /** A path is a video's if it is the videos directory or lies in it. */
  lemma VideoIff(path: Text)
    ensures IsVideo(path) <==> path == Videos || Videos + ['/'] <= path
  {
    SlashInside(path);
    if '/' in path {
      CutSplits(path);
    } else {
      CutNowhere<Byte>(path, '/');
    }
    if Videos + ['/'] <= path {
      CutAt<Byte>(Videos, '/', path[|Videos| + 1..]);
      assert path == Videos + ['/'] + path[|Videos| + 1..];
    }
  }

  lemma SlashInside(path: Text)
    ensures Videos + ['/'] <= path ==> '/' in path
  {
    if Videos + ['/'] <= path {
      assert path[|Videos|] == '/';
    }
  }

  lemma {:induction false} CutSplits(s: Text)
    requires '/' in s
    ensures Cut<Byte>(s, '/').0 + ['/'] <= s
  {
    if s[0] != '/' {
      CutSplits(s[1..]);
    }
  }
}
