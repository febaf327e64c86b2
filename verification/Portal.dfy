/** The portal's login session: one token with a sliding expiry on the 32-bit clock. */
module Session {
  import opened Wrappers
  import opened ArduinoText
  import opened Clock

  const TTL_MS: Word := 900000

  // `token` is empty when nobody is logged in.
  datatype Login = Login(token: string, expiryMs: Word)

  const LOGGED_OUT := Login("", 0)

  predicate Admits(l: Login, t: nat, presented: Option<string>) {
    l.token != "" && Millis(t) <= l.expiryMs && presented == Some(l.token)
  }

  function Refreshed(l: Login, t: nat): Login {
    l.(expiryMs := Add32(Millis(t), TTL_MS))
  }

  datatype Request =
    | Visit(presented: Option<string>)             // any page that asks isAuthed()
    | SignIn(granted: bool, token: string)         // granted: user and password match
    | SignOut

  function Handled(l: Login, t: nat, r: Request): Login {
    match r
    case Visit(presented) => if Admits(l, t, presented) then Refreshed(l, t) else l
    case SignIn(granted, token) => if granted then Login(token, Add32(Millis(t), TTL_MS)) else l
    case SignOut => l.(token := "")
  }

  class Portal {
    var token: string
    var expiryMs: Word

    function State(): Login
      reads this
    {
      Login(token, expiryMs)
    }

    constructor ()
      ensures State() == LOGGED_OUT
    {
      token, expiryMs := "", 0;
    }

    method IsAuthed(t: nat, cookie: Option<string>) returns (ok: bool)
      modifies this
      ensures ok == Admits(old(State()), t, Presented(cookie))
      ensures State() == Handled(old(State()), t, Visit(Presented(cookie)))
    {
      if token == "" || Millis(t) > expiryMs {
        return false;
      }
      if cookie.None? {
        return false;
      }
      var presented := CookieToken(cookie.value);
      if presented.None? || presented.value != token {
        return false;
      }
      expiryMs := Add32(Millis(t), TTL_MS);
      return true;
    }

    method HandleLoginPost(t: nat, granted: bool, newToken: string)
      modifies this
      ensures State() == Handled(old(State()), t, SignIn(granted, newToken))
    {
      if granted {
        token := newToken;
        expiryMs := Add32(Millis(t), TTL_MS);
      }
    }

    method HandleLogout(t: nat)
      modifies this
      ensures State() == Handled(old(State()), t, SignOut)
    {
      token := "";
    }
  }

  // ---- The cookie header -------------------------------------------------------

  const NAME := "SESSION="

  // String::indexOf: the first place where `key` occurs.
  function IndexOf(s: string, key: string): Option<nat> {
    if key <= s then Some(0)
    else if s == "" then None
    else match IndexOf(s[1..], key) case None => None case Some(i) => Some(i + 1)
  }

  lemma {:induction false} IndexWithin(s: string, key: string)
    ensures IndexOf(s, key).Some? ==> IndexOf(s, key).value + |key| <= |s|
  {
    if !(key <= s) && s != "" {
      IndexWithin(s[1..], key);
    }
  }

  function UpToSemicolon(s: string): string {
    if s == "" || s[0] == ';' then "" else [s[0]] + UpToSemicolon(s[1..])
  }

  function CookieToken(header: string): Option<string> {
    IndexWithin(header, NAME);
    match IndexOf(header, NAME)
    case None => None
    case Some(i) => Some(Trim(UpToSemicolon(header[i + |NAME|..])))
  }

  function Presented(cookie: Option<string>): Option<string> {
    match cookie case None => None case Some(header) => CookieToken(header)
  }

  predicate HexToken(token: string) {
    |token| == 32 && forall c | c in token :: '0' <= c <= '9' || 'a' <= c <= 'f'
  }

  lemma {:induction false} UpToEnd(token: string, rest: string)
    requires ';' !in token && (rest == "" || rest[0] == ';')
    ensures UpToSemicolon(token + rest) == token
  {
    if token != "" {
      assert (token + rest)[1..] == token[1..] + rest;
      UpToEnd(token[1..], rest);
    } else {
      assert token + rest == rest;
    }
  }

  /** The cookie that a login sets comes back as the token it issued, alone or before other cookies. */
  lemma CookieRoundTrip(token: string, rest: string)
    requires HexToken(token) && (rest == "" || rest[0] == ';')
    ensures CookieToken(NAME + token + rest) == Some(token)
  {
    var header := NAME + token + rest;
    assert NAME <= header;
    assert header[|NAME|..] == token + rest;
    assert forall c | c in token :: c != ';' && !IsSpace(c);
    UpToEnd(token, rest);
    assert !IsSpace(token[0]) && !IsSpace(token[|token| - 1]);
  }

  /** The session cookie is found wherever it stands in the header, by its first occurrence. */
  lemma {:induction false} IndexExact(before: string, key: string, rest: string)
    requires forall i | 0 <= i < |before| :: !(key <= (before + key + rest)[i..])
    ensures IndexOf(before + key + rest, key) == Some(|before|)
    decreases |before|
  {
    var s := before + key + rest;
    if before == "" {
      assert key <= s;
    } else {
      assert s[1..] == before[1..] + key + rest;
      assert s[0..] == s;
      forall i | 0 <= i < |before| - 1
        ensures !(key <= s[1..][i..])
      {
        assert s[1..][i..] == s[i + 1..];
      }
      IndexExact(before[1..], key, rest);
    }
  }

  lemma {:induction false} IndexNone(s: string, key: string)
    ensures IndexOf(s, key).None? <==> forall i | 0 <= i <= |s| :: !(key <= s[i..])
  {
    assert s[0..] == s;
    if !(key <= s) && s != "" {
      IndexNone(s[1..], key);
      forall i | 1 <= i <= |s|
        ensures s[i..] == s[1..][i - 1..]
      {
      }
      if IndexOf(s[1..], key).Some? {
        var i :| 0 <= i <= |s[1..]| && key <= s[1..][i..];
        assert key <= s[i + 1..];
      }
    }
  }

  // The first place in the header at which the name of the session cookie occurs is behind `before`.
  predicate NamedFirst(before: string, rest: string) {
    forall i | 0 <= i < |before| :: !(NAME <= (before + NAME + rest)[i..])
  }

  /** So the token presented is what stands there up to the next semicolon, less white space; and there is
      none exactly if the name does not occur. */
  lemma TokenExact(before: string, left: string, token: string, right: string, rest: string)
    requires NamedFirst(before, left + token + right + rest)
    requires Spaces(left) && Tight(token) && Spaces(right) && ';' !in token && (rest == "" || rest[0] == ';')
    ensures CookieToken(before + NAME + (left + token + right + rest)) == Some(token)
  {
    var value := left + token + right;
    var header := before + NAME + (value + rest);
    IndexExact(before, NAME, value + rest);
    assert header[|before| + |NAME|..] == value + rest;
    assert ';' !in value;
    UpToEnd(value, rest);
    TrimExact(left, token, right);
  }

  lemma NoToken(header: string)
    ensures CookieToken(header).None? <==> forall i | 0 <= i <= |header| :: !(NAME <= header[i..])
  {
    IndexNone(header, NAME);
  }

  // ---- Runs ------------------------------------------------------------------

  datatype Tick = Tick(at: nat, request: Request)

  /** The expiry test, like every absolute deadline of the firmware, is right at every instant from a
      refresh to `end` if and only if the clock does not roll over in between. */
  lemma ExpiryTestExact(token: string, refreshed: nat, end: nat)
    requires token != "" && refreshed + TTL_MS < end
    ensures (forall t: nat | refreshed <= t <= end ::
               Admits(Login(token, Add32(Millis(refreshed), TTL_MS)), t, Some(token)) == (t <= refreshed + TTL_MS))
            <==> refreshed / WRAP == end / WRAP
  {
    var l, due := Login(token, Add32(Millis(refreshed), TTL_MS)), refreshed + TTL_MS;
    var m := Millis(refreshed) + TTL_MS;
    DivMod(m, if m < WRAP then 0 else 1, if m < WRAP then m else m - WRAP);
    if refreshed / WRAP == end / WRAP {
      forall t: nat | refreshed <= t <= end
        ensures Admits(l, t, Some(token)) == (t <= due)
      {
        assert t / WRAP == refreshed / WRAP && due / WRAP == refreshed / WRAP;
      }
    } else if refreshed / WRAP != due / WRAP {
      assert !Admits(l, refreshed, Some(token));
    } else {
      var roll := (end / WRAP) * WRAP;
      assert due < roll <= end;
      DivMod(roll, end / WRAP, 0);
      assert Admits(l, roll, Some(token));
    }
  }

  // Requests in order of time; fresh tokens are never empty.
  ghost predicate Orderly(ticks: seq<Tick>) {
    && (forall i, j | 0 <= i <= j < |ticks| :: ticks[i].at <= ticks[j].at)
    && (forall i | 0 <= i < |ticks| && ticks[i].request.SignIn? :: ticks[i].request.token != "")
  }

  function Run(ticks: seq<Tick>): Login
    decreases |ticks|
  {
    if ticks == [] then LOGGED_OUT
    else Handled(Run(ticks[..|ticks| - 1]), ticks[|ticks| - 1].at, ticks[|ticks| - 1].request)
  }

  predicate Admitted(ticks: seq<Tick>, i: nat)
    requires i < |ticks|
  {
    ticks[i].request.Visit? && Admits(Run(ticks[..i]), ticks[i].at, ticks[i].request.presented)
  }

  // The indices of the login that issued the current token and of every visit admitted since; none
  // after a logout.
  function Chain(ticks: seq<Tick>): seq<nat>
    decreases |ticks|
  {
    if ticks == [] then []
    else
      var n := |ticks| - 1;
      match ticks[n].request
      case SignOut => []
      case SignIn(granted, _) => if granted then [n] else Chain(ticks[..n])
      case Visit(_) => if Admitted(ticks, n) then Chain(ticks[..n]) + [n] else Chain(ticks[..n])
  }

  lemma {:induction false} ChainWithin(ticks: seq<Tick>)
    ensures forall k | 0 <= k < |Chain(ticks)| :: Chain(ticks)[k] < |ticks|
    decreases |ticks|
  {
    if ticks != [] {
      ChainWithin(ticks[..|ticks| - 1]);
    }
  }

  // When the link with index k was added to the chain.
  function LinkTime(ticks: seq<Tick>, k: nat): nat
    requires k < |Chain(ticks)|
  {
    ChainWithin(ticks);
    ticks[Chain(ticks)[k]].at
  }

  // When the chain was last extended.
  function LatestLink(ticks: seq<Tick>): nat
    requires Chain(ticks) != []
  {
    LinkTime(ticks, |Chain(ticks)| - 1)
  }

  // At time t the clock reads no more than when the time to live since `link` is over.
  predicate NotExpired(link: nat, t: nat) {
    Millis(t) <= Millis(link + TTL_MS)
  }

  // What links the requests of a chain: it starts with the login that issued `token`, with no later
  // login or logout; each further one is a visit presenting that token, not expired by the clock.
  ghost predicate Linked(ticks: seq<Tick>, chain: seq<nat>, token: string) {
    && chain != []
    && (forall k | 0 <= k < |chain| :: chain[k] < |ticks|)
    && (forall k | 0 < k < |chain| ::
          && chain[k - 1] < chain[k]
          && ticks[chain[k]].request == Visit(Some(token))
          && NotExpired(ticks[chain[k - 1]].at, ticks[chain[k]].at))
    && ticks[chain[0]].request == SignIn(true, token)
    && forall j | chain[0] < j < |ticks| ::
         ticks[j].request != SignOut && !(ticks[j].request.SignIn? && ticks[j].request.granted)
  }

  lemma LinkedLater(ticks: seq<Tick>, chain: seq<nat>, token: string)
    requires ticks != [] && Linked(ticks[..|ticks| - 1], chain, token)
    requires ticks[|ticks| - 1].request.Visit? || (ticks[|ticks| - 1].request.SignIn? && !ticks[|ticks| - 1].request.granted)
    ensures Linked(ticks, chain, token)
  {
    var front := ticks[..|ticks| - 1];
    assert forall j | 0 <= j < |front| :: front[j] == ticks[j];
  }

  lemma LinkedMore(ticks: seq<Tick>, chain: seq<nat>, token: string)
    requires ticks != [] && Linked(ticks[..|ticks| - 1], chain, token)
    requires ticks[|ticks| - 1].request == Visit(Some(token))
    requires NotExpired(ticks[chain[|chain| - 1]].at, ticks[|ticks| - 1].at)
    ensures Linked(ticks, chain + [|ticks| - 1], token)
  {
    LinkedLater(ticks, chain, token);
  }

  // What the session holds, in terms of a chain.
  ghost predicate Agrees(ticks: seq<Tick>, l: Login, chain: seq<nat>) {
    && (l.token == "" <==> chain == [])
    && (chain != [] ==> Linked(ticks, chain, l.token) && l.expiryMs == Millis(ticks[chain[|chain| - 1]].at + TTL_MS))
  }

  lemma AdmittedStep(ticks: seq<Tick>, l: Login, chain: seq<nat>)
    requires ticks != [] && ticks[|ticks| - 1].request.Visit?
    requires Agrees(ticks[..|ticks| - 1], l, chain)
    requires Admits(l, ticks[|ticks| - 1].at, ticks[|ticks| - 1].request.presented)
    ensures Agrees(ticks, Refreshed(l, ticks[|ticks| - 1].at), chain + [|ticks| - 1])
  {
    var n := |ticks| - 1;
    var last := chain[|chain| - 1];
    assert chain[|chain| - 1] < n;
    assert ticks[..n][last] == ticks[last];
    LinkedMore(ticks, chain, l.token);
    assert (chain + [n])[|chain + [n]| - 1] == n;
    Add32Millis(ticks[n].at, TTL_MS);
  }

  lemma IgnoredStep(ticks: seq<Tick>, l: Login, chain: seq<nat>)
    requires ticks != []
    requires ticks[|ticks| - 1].request.Visit? || (ticks[|ticks| - 1].request.SignIn? && !ticks[|ticks| - 1].request.granted)
    requires Agrees(ticks[..|ticks| - 1], l, chain)
    ensures Agrees(ticks, l, chain)
  {
    if chain != [] {
      var last := chain[|chain| - 1];
      assert ticks[..|ticks| - 1][last] == ticks[last];
      LinkedLater(ticks, chain, l.token);
    }
  }

  lemma VisitStep(ticks: seq<Tick>)
    requires Orderly(ticks) && ticks != [] && ticks[|ticks| - 1].request.Visit?
    requires Agrees(ticks[..|ticks| - 1], Run(ticks[..|ticks| - 1]), Chain(ticks[..|ticks| - 1]))
    ensures Agrees(ticks, Run(ticks), Chain(ticks))
  {
    var n := |ticks| - 1;
    var chain := Chain(ticks[..n]);
    if Admitted(ticks, n) {
      AdmittedStep(ticks, Run(ticks[..n]), chain);
    } else {
      IgnoredStep(ticks, Run(ticks[..n]), chain);
    }
  }

  lemma GrantedStep(ticks: seq<Tick>, token: string)
    requires ticks != [] && token != "" && ticks[|ticks| - 1].request == SignIn(true, token)
    ensures Agrees(ticks, Login(token, Add32(Millis(ticks[|ticks| - 1].at), TTL_MS)), [|ticks| - 1])
  {
    Add32Millis(ticks[|ticks| - 1].at, TTL_MS);
  }

  lemma {:induction false} ChainAgrees(ticks: seq<Tick>)
    requires Orderly(ticks)
    ensures Agrees(ticks, Run(ticks), Chain(ticks))
    decreases |ticks|
  {
    if ticks != [] {
      var n := |ticks| - 1;
      ChainAgrees(ticks[..n]);
      match ticks[n].request {
        case Visit(_) => VisitStep(ticks);
        case SignOut =>
        case SignIn(granted, token) =>
          if granted {
            GrantedStep(ticks, token);
          } else {
            IgnoredStep(ticks, Run(ticks[..n]), Chain(ticks[..n]));
          }
      }
    }
  }

  /** The token in force and the chain tell the same story, on any clock: the token is empty exactly when
      the chain is, and otherwise it was issued at the chain's head, with no login or logout since, and
      every link of the chain is a visit presenting it, not expired by the clock since the one before. */
  lemma ChainHolds(ticks: seq<Tick>)
    requires Orderly(ticks)
    ensures Run(ticks).token == "" <==> Chain(ticks) == []
    ensures Chain(ticks) != [] ==> Linked(ticks, Chain(ticks), Run(ticks).token)
  {
    ChainAgrees(ticks);
  }

  /** On any clock, a visit is admitted if and only if there is a login in force, the visit presents the
      token it issued, and the clock has not passed the expiry set at the latest link of its chain. */
  lemma AdmittedExact(ticks: seq<Tick>, i: nat)
    requires Orderly(ticks) && i < |ticks| && ticks[i].request.Visit?
    ensures Admitted(ticks, i)
            <==> && Chain(ticks[..i]) != []
                 && Linked(ticks[..i], Chain(ticks[..i]), Run(ticks[..i]).token)
                 && ticks[i].request.presented == Some(Run(ticks[..i]).token)
                 && NotExpired(LatestLink(ticks[..i]), ticks[i].at)
  {
    ChainAgrees(ticks[..i]);
  }

  // The visit at index i presents the token in force.
  ghost predicate PresentsToken(ticks: seq<Tick>, i: nat) {
    && i < |ticks| && ticks[i].request.Visit?
    && Chain(ticks[..i]) != [] && ticks[i].request.presented == Some(Run(ticks[..i]).token)
  }

  /** Which says: if no rollover falls between the expiry and the visit, exactly that no more than the time
      to live has passed since that link. */
  lemma AdmittedInTime(ticks: seq<Tick>, i: nat)
    requires Orderly(ticks) && PresentsToken(ticks, i)
    requires (LatestLink(ticks[..i]) + TTL_MS) / WRAP == ticks[i].at / WRAP
    ensures Admitted(ticks, i) <==> ticks[i].at - LatestLink(ticks[..i]) <= TTL_MS
  {
    AdmittedExact(ticks, i);
    ChainHolds(ticks[..i]);
  }

  /** And if one does: before it, a session that has not expired is refused; after it, one that has expired
      is admitted again for as long as the clock reads no more than at the expiry. */
  lemma AcrossRollover(ticks: seq<Tick>, i: nat)
    requires Orderly(ticks) && PresentsToken(ticks, i)
    ensures ticks[i].at / WRAP < (LatestLink(ticks[..i]) + TTL_MS) / WRAP ==>
              !Admitted(ticks, i) && ticks[i].at - LatestLink(ticks[..i]) <= TTL_MS
    ensures ticks[i].at / WRAP > (LatestLink(ticks[..i]) + TTL_MS) / WRAP ==>
              && ticks[i].at - LatestLink(ticks[..i]) > TTL_MS
              && (Admitted(ticks, i) <==> Millis(ticks[i].at) <= Millis(LatestLink(ticks[..i]) + TTL_MS))
  {
    AdmittedExact(ticks, i);
    ChainHolds(ticks[..i]);
    LinkBefore(ticks, i);
    RefusedBefore(LatestLink(ticks[..i]), ticks[i].at);
  }

  lemma LinkBefore(ticks: seq<Tick>, i: nat)
    requires Orderly(ticks) && i < |ticks| && Chain(ticks[..i]) != []
    ensures LatestLink(ticks[..i]) <= ticks[i].at
  {
    ChainWithin(ticks[..i]);
    var chain := Chain(ticks[..i]);
    assert ticks[..i][chain[|chain| - 1]] == ticks[chain[|chain| - 1]];
  }

  lemma RefusedBefore(link: nat, t: nat)
    requires link <= t
    ensures t / WRAP < (link + TTL_MS) / WRAP ==> !NotExpired(link, t) && t < link + TTL_MS
  {
    if t / WRAP < (link + TTL_MS) / WRAP {
      DivMod(link + TTL_MS, link / WRAP + 1, Millis(link) + TTL_MS - WRAP);
    }
  }

  /** So between two links of the chain with no rollover between the expiry of the first and the second lies
      no more than the time to live. */
  lemma LinksInTime(ticks: seq<Tick>, k: nat)
    requires Orderly(ticks) && 0 < k < |Chain(ticks)|
    ensures var prev, link := LinkTime(ticks, k - 1), LinkTime(ticks, k);
            (prev + TTL_MS) / WRAP == link / WRAP ==> link - prev <= TTL_MS
  {
    ChainHolds(ticks);
  }
}

/** Escaping of text for HTML. */
module Html {

  function Entity(c: char): string {
    match c
    case '&' => "&amp;"
    case '<' => "&lt;"
    case '>' => "&gt;"
    case '"' => "&quot;"
    case '\'' => "&#39;"
    case _ => [c]
  }

  function Escape(s: string): string {
    if s == "" then "" else Entity(s[0]) + Escape(s[1..])
  }

  method HtmlEscape(s: string) returns (out: string)
    ensures out == Escape(s)
  {
    out := "";
    var i := 0;
    while i < |s|
      invariant 0 <= i <= |s|
      invariant out + Escape(s[i..]) == Escape(s)
    {
      ghost var rest := s[i..];
      assert rest[1..] == s[i + 1..];
      assert out + (Entity(s[i]) + Escape(s[i + 1..])) == out + Entity(s[i]) + Escape(s[i + 1..]);
      match s[i] {
        case '&' => out := out + "&amp;";
        case '<' => out := out + "&lt;";
        case '>' => out := out + "&gt;";
        case '"' => out := out + "&quot;";
        case '\'' => out := out + "&#39;";
        case _ => out := out + [s[i]];
      }
      i := i + 1;
    }
    assert s[i..] == "";
  }

  const SPECIAL: seq<char> := ['&', '<', '>', '"', '\'']

  const ENTITIES: seq<string> := ["&amp;", "&lt;", "&gt;", "&quot;", "&#39;"]

  // The first character that a text stands for, and how many characters it takes.
  function Decoded(s: string): (char, nat)
    requires s != ""
  {
    if "&amp;" <= s then ('&', 5)
    else if "&lt;" <= s then ('<', 4)
    else if "&gt;" <= s then ('>', 4)
    else if "&quot;" <= s then ('"', 6)
    else if "&#39;" <= s then ('\'', 5)
    else (s[0], 1)
  }

  function Unescape(s: string): string
    decreases |s|
  {
    if s == "" then "" else [Decoded(s).0] + Unescape(s[Decoded(s).1..])
  }

  lemma DecodesEntity(c: char, rest: string)
    ensures Decoded(Entity(c) + rest) == (c, |Entity(c)|)
  {
    var s := Entity(c) + rest;
    assert s[0] == Entity(c)[0];
    if c == '&' {
      assert s[..5] == "&amp;";
    } else if c == '<' {
      assert s[..4] == "&lt;" && s[1] == 'l';
    } else if c == '>' {
      assert s[..4] == "&gt;" && s[1] == 'g';
    } else if c == '"' {
      assert s[..6] == "&quot;" && s[1] == 'q';
    } else if c == '\'' {
      assert s[..5] == "&#39;" && s[1] == '#';
    }
  }

  /** Escaping loses nothing: `Unescape` recovers every text, so no two texts escape alike. */
  lemma {:induction false} UnescapeEscape(s: string)
    ensures Unescape(Escape(s)) == s
  {
    if s != "" {
      DecodesEntity(s[0], Escape(s[1..]));
      assert Escape(s)[|Entity(s[0])|..] == Escape(s[1..]);
      UnescapeEscape(s[1..]);
    }
  }

  lemma EscapeInjective(a: string, b: string)
    requires Escape(a) == Escape(b)
    ensures a == b
  {
    UnescapeEscape(a);
    UnescapeEscape(b);
  }

  /** Texts may be escaped piece by piece. */
  lemma {:induction false} EscapeConcat(a: string, b: string)
    ensures Escape(a + b) == Escape(a) + Escape(b)
  {
    if a == "" {
      assert a + b == b;
    } else {
      assert (a + b)[1..] == a[1..] + b;
      EscapeConcat(a[1..], b);
      assert Entity(a[0]) + (Escape(a[1..]) + Escape(b)) == Entity(a[0]) + Escape(a[1..]) + Escape(b);
    }
  }

  // The character at i cannot be taken for markup: it is none of the four that could end an
  // attribute or a text, and an ampersand starts one of the five entities.
  ghost predicate Inert(s: string, i: nat)
    requires i < |s|
  {
    && s[i] != '<' && s[i] != '>' && s[i] != '"' && s[i] != '\''
    && (s[i] == '&' ==> exists e :: e in ENTITIES && e <= s[i..])
  }

  /** No character of an escaped text can be taken for markup. */
  lemma {:induction false} EscapeInert(s: string, i: nat)
    requires i < |Escape(s)|
    ensures Inert(Escape(s), i)
  {
    var head, tail := Entity(s[0]), Escape(s[1..]);
    if i >= |head| {
      EscapeInert(s[1..], i - |head|);
      assert (head + tail)[i] == tail[i - |head|];
      assert (head + tail)[i..] == tail[i - |head|..];
    } else {
      assert (head + tail)[i] == head[i];
      if s[0] in SPECIAL {
        assert i == 0 ==> Entity(s[0]) in ENTITIES && Entity(s[0]) <= (head + tail)[i..];
      }
    }
  }
}

/** The downstream throughput test: a bounded transfer that blocks loop() while it runs. */
module SpeedTest {
  import opened Wrappers
  import opened Clock

  const BLOCK_BYTES: nat := 4096
  const DEFAULT_MIB: nat := 8
  const MAX_MIB: nat := 64
  const MAX_MS: Word := 20000

  function Target(mb: int): nat {
    (if mb <= 0 then DEFAULT_MIB else if mb > MAX_MIB then MAX_MIB else mb) * 1024 * 1024
  }

  // By the clock, the 20 seconds of the test are not over.
  predicate TimeLeft(now: nat, start: nat) {
    (Millis(now) - Millis(start)) % WRAP < 20000
  }

  // The client has gone, or the time is up, when block k would be sent.
  predicate Ends(clock: nat -> nat, connected: nat -> bool, start: nat, k: nat) {
    Sub32(Millis(clock(k)), Millis(start)) >= MAX_MS || !connected(k)
  }

  lemma EndsExact(clock: nat -> nat, connected: nat -> bool, start: nat, k: nat)
    ensures Ends(clock, connected, start, k) <==> !TimeLeft(clock(k), start) || !connected(k)
  {
  }

  // How many blocks are sent when `left` more are wanted and k have been.
  function Blocks(clock: nat -> nat, connected: nat -> bool, start: nat, k: nat, left: nat): nat
    decreases left
  {
    if left == 0 || Ends(clock, connected, start, k) then k
    else Blocks(clock, connected, start, k + 1, left - 1)
  }

  /** The transfer ends at the first block at which the deadline has passed or the client is gone, or
      at the target, whichever comes first. */
  lemma {:induction false} BlocksStop(clock: nat -> nat, connected: nat -> bool, start: nat, k: nat, left: nat)
    ensures k <= Blocks(clock, connected, start, k, left) <= k + left
    ensures forall i: nat | k <= i < Blocks(clock, connected, start, k, left) :: TimeLeft(clock(i), start) && connected(i)
    ensures var n := Blocks(clock, connected, start, k, left);
            n < k + left ==> !TimeLeft(clock(n), start) || !connected(n)
    decreases left
  {
    if left > 0 && !Ends(clock, connected, start, k) {
      BlocksStop(clock, connected, start, k + 1, left - 1);
    }
  }

  /** The transfer loop. `clock(k)` and `connected(k)` are what the k-th turn sees, `end` when it is
      over; `kbps` is the figure logged. */
  method Run(mb: int, start: nat, clock: nat -> nat, connected: nat -> bool, end: nat)
    returns (sent: Word, elapsedMs: Word, kbps: Word)
    requires start <= end < start + WRAP
    ensures sent == BLOCK_BYTES * Blocks(clock, connected, start, 0, Target(mb) / BLOCK_BYTES)
    ensures sent <= Target(mb)
    ensures Target(mb) == (if mb <= 0 then 8 else if mb > 64 then 64 else mb) * 1024 * 1024
    ensures forall k: nat | k < sent / BLOCK_BYTES :: TimeLeft(clock(k), start) && connected(k)
    ensures var k := sent / BLOCK_BYTES; sent < Target(mb) ==> !TimeLeft(clock(k), start) || !connected(k)
    ensures elapsedMs == end - start
    ensures kbps == if elapsedMs == 0 then 0 else 8 * sent / elapsedMs
  {
    BlocksStop(clock, connected, start, 0, Target(mb) / BLOCK_BYTES);
    sent := Transfer(Target(mb), start, clock, connected);
    Elapsed(start, end);
    elapsedMs := Sub32(Millis(end), Millis(start));
    kbps := if elapsedMs > 0 then Rate(sent, elapsedMs) else 0;
  }

  method Transfer(target: nat, start: nat, clock: nat -> nat, connected: nat -> bool) returns (sent: Word)
    requires target % BLOCK_BYTES == 0 && target <= MAX_MIB * 1024 * 1024
    ensures sent == BLOCK_BYTES * Blocks(clock, connected, start, 0, target / BLOCK_BYTES)
  {
    ghost var total := target / BLOCK_BYTES;
    sent := 0;
    var turn := 0;
    while sent < target && Sub32(Millis(clock(turn)), Millis(start)) < MAX_MS
      invariant sent == BLOCK_BYTES * turn && turn <= total
      invariant Blocks(clock, connected, start, turn, total - turn) == Blocks(clock, connected, start, 0, total)
      decreases target - sent
    {
      if !connected(turn) {
        break;
      }
      sent := (sent + BLOCK_BYTES) % WRAP;
      turn := turn + 1;
    }
  }

  // Bits per millisecond, computed in 64 bits and cast to 32: the cast loses nothing.
  function Rate(sent: Word, elapsedMs: Word): (kbps: Word)
    requires elapsedMs > 0
    ensures sent <= MAX_MIB * 1024 * 1024 ==> kbps == 8 * sent / elapsedMs
  {
    QuotientWithin(8 * sent, elapsedMs);
    8 * sent / elapsedMs % WRAP
  }

  lemma QuotientWithin(a: nat, b: nat)
    requires b > 0
    ensures 0 <= a / b <= a
  {
    var q := a / b;
    assert a == b * q + a % b;
    AtLeast(b, q);
  }

  lemma {:induction false} AtLeast(b: nat, q: int)
    requires b > 0
    ensures q >= 0 ==> b * q >= q
    ensures q < 0 ==> b * q <= q
  {
    if b > 1 {
      AtLeast(b - 1, q);
      assert b * q == (b - 1) * q + q;
    }
  }
}
