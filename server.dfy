/**
 * The lottery backend of server/index.js: the themes table, the three
 * per-theme configuration tables, the participation fingerprints and the
 * access tokens, with the request handlers that read and change them.
 *
 * Every handler is one check-then-act sequence over the tables; here each is
 * a method of class Server, whose fields are the tables and a clock in
 * milliseconds. HTTP plumbing is reduced to a reply value per handler.
 */
module Server {
  import opened Wrappers
  import opened Tables

  type ThemeId = string

  /** A configuration blob: the JSON text a client posted, never looked into. */
  type Blob = string

  /** TOKEN_EXPIRE_HOURS: an access token lives for 24 hours ... */
  const TokenExpireHours: int := 24
  /** ... which is this many milliseconds. */
  const TokenLifetimeMs: int := TokenExpireHours * 60 * 60 * 1000

  /** A row of the themes table; the password is stored and compared as plain text. */
  datatype Theme = Theme(id: ThemeId, name: string, description: string, password: string,
                         createdAt: int, updatedAt: int)

  /** A theme as the list, get and create replies show it: every column except the password. */
  datatype ThemeSummary = ThemeSummary(id: ThemeId, name: string, description: string,
                                       createdAt: int, updatedAt: int)

  /** The one row a configuration table holds for a theme. */
  datatype ConfigRow = ConfigRow(data: Blob, updatedAt: int)

  /** Which of the three configuration tables: person_config, prize_config or global_config. */
  datatype ConfigKind = Person | Prize | Global

  datatype FingerprintRow = FingerprintRow(themeId: ThemeId, fingerprint: string, personName: string,
                                           createdAt: int)

  datatype TokenRow = TokenRow(themeId: ThemeId, token: string, expiresAt: int, createdAt: int)

  /** Reply of verify-password: 404, `valid: false`, or `valid: true` with the new token. */
  datatype PasswordReply = ThemeNotFound | Rejected | Issued(token: string, expiresAt: int)

  /** Reply of theme deletion: success, 404 or 403. */
  datatype DeleteReply = Deleted | NotFound | Forbidden

  /** Reply of recording a fingerprint: success, or the `already_joined` error. */
  datatype JoinReply = Joined | AlreadyJoined

  function Summary(t: Theme): ThemeSummary {
    ThemeSummary(t.id, t.name, t.description, t.createdAt, t.updatedAt)
  }

  // ---------------------------------------------------------------------------
  // Row conditions of the SQL statements

  function HasId(id: ThemeId): Theme -> bool {
    (t: Theme) => t.id == id
  }

  function OtherId(id: ThemeId): Theme -> bool {
    (t: Theme) => t.id != id
  }

  /** Rows that `DELETE ... WHERE expires_at < now` keeps. */
  function Unexpired(now: int): TokenRow -> bool {
    (r: TokenRow) => !(r.expiresAt < now)
  }

  /** Rows the verify-token query selects. */
  function Live(themeId: ThemeId, token: string, now: int): TokenRow -> bool {
    (r: TokenRow) => r.themeId == themeId && r.token == token && r.expiresAt > now
  }

  function SameJoin(themeId: ThemeId, fingerprint: string): FingerprintRow -> bool {
    (r: FingerprintRow) => r.themeId == themeId && r.fingerprint == fingerprint
  }

  function OfTheme(themeId: ThemeId): FingerprintRow -> bool {
    (r: FingerprintRow) => r.themeId == themeId
  }

  function OutsideTheme(themeId: ThemeId): FingerprintRow -> bool {
    (r: FingerprintRow) => r.themeId != themeId
  }

  function NotNamed(themeId: ThemeId, personName: string): FingerprintRow -> bool {
    (r: FingerprintRow) => !(r.themeId == themeId && r.personName == personName)
  }

  // ---------------------------------------------------------------------------
  // Pairwise constraints the tables keep

  predicate DistinctIds(a: Theme, b: Theme) {
    a.id != b.id
  }

  predicate ThemesInOrder(a: Theme, b: Theme) {
    a.createdAt <= b.createdAt
  }

  predicate DistinctJoins(a: FingerprintRow, b: FingerprintRow) {
    !(a.themeId == b.themeId && a.fingerprint == b.fingerprint)
  }

  predicate JoinsInOrder(a: FingerprintRow, b: FingerprintRow) {
    a.createdAt <= b.createdAt
  }

  /** Theme ids are unique and rows sit in creation order, none created after `clock`. */
  ghost predicate ThemeTableValid(themes: seq<Theme>, clock: int) {
    && Pairwise(themes, DistinctIds)
    && Pairwise(themes, ThemesInOrder)
    && (forall i :: 0 <= i < |themes| ==> themes[i].createdAt <= clock)
  }

  /** (theme, fingerprint) pairs are unique and rows sit in creation order, none created after `clock`. */
  ghost predicate JoinTableValid(fingerprints: seq<FingerprintRow>, clock: int) {
    && Pairwise(fingerprints, DistinctJoins)
    && Pairwise(fingerprints, JoinsInOrder)
    && (forall i :: 0 <= i < |fingerprints| ==> fingerprints[i].createdAt <= clock)
  }

  /** Deleting theme rows by any condition keeps the theme table valid. */
  lemma FilteredThemesValid(themes: seq<Theme>, clock: int, keep: Theme -> bool)
    requires ThemeTableValid(themes, clock)
    ensures ThemeTableValid(Where(themes, keep), clock)
  {
    WhereMembers(themes, keep);
    WherePairwise(themes, keep, DistinctIds);
    WherePairwise(themes, keep, ThemesInOrder);
  }

  /** Deleting fingerprint rows by any condition keeps the fingerprint table valid. */
  lemma FilteredJoinsValid(fingerprints: seq<FingerprintRow>, clock: int, keep: FingerprintRow -> bool)
    requires JoinTableValid(fingerprints, clock)
    ensures JoinTableValid(Where(fingerprints, keep), clock)
  {
    WhereMembers(fingerprints, keep);
    WherePairwise(fingerprints, keep, DistinctJoins);
    WherePairwise(fingerprints, keep, JoinsInOrder);
  }

  /** Rewriting rows in place, keeping each row's id and creation time, keeps the theme table valid. */
  lemma RewrittenThemesValid(before: seq<Theme>, after: seq<Theme>, clock: int)
    requires ThemeTableValid(before, clock)
    requires |after| == |before|
    requires forall i :: 0 <= i < |after| ==> after[i].id == before[i].id && after[i].createdAt == before[i].createdAt
    ensures ThemeTableValid(after, clock)
  {
    forall i, j | 0 <= i < j < |after| ensures DistinctIds(after[i], after[j]) && ThemesInOrder(after[i], after[j]) {
      assert DistinctIds(before[i], before[j]) && ThemesInOrder(before[i], before[j]);
    }
  }

  // ---------------------------------------------------------------------------
  // Queries

  predicate ThemeExists(themes: seq<Theme>, id: ThemeId) {
    exists i :: 0 <= i < |themes| && themes[i].id == id
  }

  /** `SELECT ... FROM themes WHERE id = ?` with `.get()`: the first row with that id. */
  function FindTheme(themes: seq<Theme>, id: ThemeId): (r: Option<Theme>)
    ensures r.Some? <==> ThemeExists(themes, id)
    ensures r.Some? ==> r.value in themes && r.value.id == id
  {
    var hits := Where(themes, HasId(id));
    WhereMembers(themes, HasId(id));
    assert forall i :: 0 <= i < |themes| && themes[i].id == id ==> themes[i] in hits;
    if hits == [] then None else Some(hits[0])
  }

  predicate HasJoined(fingerprints: seq<FingerprintRow>, themeId: ThemeId, fingerprint: string) {
    exists i :: 0 <= i < |fingerprints| && fingerprints[i].themeId == themeId
                                        && fingerprints[i].fingerprint == fingerprint
  }

  /** `SELECT * FROM fingerprints WHERE theme_id = ? AND fingerprint = ?` with `.get()`. */
  function FindFingerprint(fingerprints: seq<FingerprintRow>, themeId: ThemeId, fingerprint: string)
    : (r: Option<FingerprintRow>)
    ensures r.Some? <==> HasJoined(fingerprints, themeId, fingerprint)
    ensures r.Some? ==> r.value in fingerprints && r.value.themeId == themeId && r.value.fingerprint == fingerprint
  {
    var hits := Where(fingerprints, SameJoin(themeId, fingerprint));
    WhereMembers(fingerprints, SameJoin(themeId, fingerprint));
    assert forall i :: (0 <= i < |fingerprints| && fingerprints[i].themeId == themeId
                        && fingerprints[i].fingerprint == fingerprint) ==> fingerprints[i] in hits;
    if hits == [] then None else Some(hits[0])
  }

  /**
   * cleanExpiredTokens: `DELETE FROM access_tokens WHERE expires_at < now`,
   * over every theme. Exactly the rows expiring strictly before now go; every
   * other row stays, as often as it was there.
   */
  function PurgeExpired(tokens: seq<TokenRow>, now: int): (r: seq<TokenRow>)
    ensures forall t :: t in r <==> t in tokens && t.expiresAt >= now
    ensures forall t :: multiset(r)[t] == if t.expiresAt >= now then multiset(tokens)[t] else 0
  {
    WhereMembers(tokens, Unexpired(now));
    WhereCounts(tokens, Unexpired(now));
    Where(tokens, Unexpired(now))
  }

  /** The verify-token query finds a row: same theme, same token, expiring strictly after now. */
  predicate TokenAccepted(tokens: seq<TokenRow>, themeId: ThemeId, token: string, now: int) {
    exists i :: 0 <= i < |tokens| && tokens[i].themeId == themeId && tokens[i].token == token
                                  && tokens[i].expiresAt > now
  }

  /** The row verify-password adds for a token issued at `now`. */
  function IssuedRow(themeId: ThemeId, token: string, now: int): (r: TokenRow)
    ensures r.expiresAt - r.createdAt == 24 * 3600 * 1000
  {
    TokenRow(themeId, token, now + TokenLifetimeMs, now)
  }

  /**
   * Theme deletion goes ahead when the stored password is empty (anyone may
   * delete) or equals the one given.
   */
  predicate DeleteAllowed(stored: string, given: Option<string>) {
    !(stored != "" && given != Some(stored))
  }

  // ---------------------------------------------------------------------------
  // Token lifecycle

  /**
   * Purging before the lookup never changes its answer: the purge removes only
   * rows expiring before now, which the lookup (strictly after now) ignores.
   */
  lemma PurgeKeepsAcceptance(tokens: seq<TokenRow>, themeId: ThemeId, token: string, now: int)
    ensures TokenAccepted(PurgeExpired(tokens, now), themeId, token, now)
        <==> TokenAccepted(tokens, themeId, token, now)
  {
    var kept := PurgeExpired(tokens, now);
    if TokenAccepted(tokens, themeId, token, now) {
      var i :| 0 <= i < |tokens| && tokens[i].themeId == themeId && tokens[i].token == token
                                 && tokens[i].expiresAt > now;
      assert tokens[i] in kept;
    }
    if TokenAccepted(kept, themeId, token, now) {
      var i :| 0 <= i < |kept| && kept[i].themeId == themeId && kept[i].token == token
                               && kept[i].expiresAt > now;
      assert kept[i] in tokens;
    }
  }

  /** The verify-token query returns a row exactly when the token is accepted. */
  lemma TokenLookup(tokens: seq<TokenRow>, themeId: ThemeId, token: string, now: int)
    ensures Where(tokens, Live(themeId, token, now)) != [] <==> TokenAccepted(tokens, themeId, token, now)
  {
    var hits := Where(tokens, Live(themeId, token, now));
    WhereMembers(tokens, Live(themeId, token, now));
    if TokenAccepted(tokens, themeId, token, now) {
      var i :| 0 <= i < |tokens| && tokens[i].themeId == themeId && tokens[i].token == token
                                 && tokens[i].expiresAt > now;
      assert tokens[i] in hits;
    }
    if hits != [] {
      assert hits[0] in tokens;
    }
  }

  /**
   * A row expiring exactly now survives the purge (strict <) and is still
   * refused by the lookup (strict >).
   */
  lemma ExpiryInstant(tokens: seq<TokenRow>, row: TokenRow)
    requires row in tokens
    requires forall i :: 0 <= i < |tokens| && tokens[i].themeId == row.themeId && tokens[i].token == row.token
                         ==> tokens[i] == row
    ensures row in PurgeExpired(tokens, row.expiresAt)
    ensures !TokenAccepted(tokens, row.themeId, row.token, row.expiresAt)
  {
  }

  /**
   * A token issued at `issuedAt` is accepted at every instant before
   * `issuedAt + 24h`; from that instant on, its row no longer contributes and
   * the answer is the one the table gave without it.
   */
  lemma IssuedTokenLifetime(tokens: seq<TokenRow>, themeId: ThemeId, token: string, issuedAt: int, now: int)
    ensures now < issuedAt + TokenLifetimeMs
            ==> TokenAccepted(tokens + [IssuedRow(themeId, token, issuedAt)], themeId, token, now)
    ensures now >= issuedAt + TokenLifetimeMs
            ==> (TokenAccepted(tokens + [IssuedRow(themeId, token, issuedAt)], themeId, token, now)
                 <==> TokenAccepted(tokens, themeId, token, now))
  {
    var grown := tokens + [IssuedRow(themeId, token, issuedAt)];
    if now < issuedAt + TokenLifetimeMs {
      assert grown[|tokens|] == IssuedRow(themeId, token, issuedAt);
    } else {
      if TokenAccepted(grown, themeId, token, now) {
        var i :| 0 <= i < |grown| && grown[i].themeId == themeId && grown[i].token == token
                                  && grown[i].expiresAt > now;
        assert i < |tokens| && grown[i] == tokens[i];
      }
      if TokenAccepted(tokens, themeId, token, now) {
        var i :| 0 <= i < |tokens| && tokens[i].themeId == themeId && tokens[i].token == token
                                   && tokens[i].expiresAt > now;
        assert grown[i] == tokens[i];
      }
    }
  }

  // ---------------------------------------------------------------------------
  // Fingerprints

  /** Right after a (theme, fingerprint) row is recorded, the pre-check finds it: the next record of that pair is refused. */
  lemma RecordedJoinIsFound(fingerprints: seq<FingerprintRow>, row: FingerprintRow)
    ensures FindFingerprint(fingerprints + [row], row.themeId, row.fingerprint).Some?
  {
    var grown := fingerprints + [row];
    assert grown[|fingerprints|] == row;
  }

  /** Appending a row whose pair is new keeps every (theme, fingerprint) pair unique. */
  lemma NewJoinKeepsPairsUnique(fingerprints: seq<FingerprintRow>, row: FingerprintRow)
    requires Pairwise(fingerprints, DistinctJoins)
    requires !HasJoined(fingerprints, row.themeId, row.fingerprint)
    ensures Pairwise(fingerprints + [row], DistinctJoins)
  {
    PairwiseAppend(fingerprints, row, DistinctJoins);
  }

  // ---------------------------------------------------------------------------
  // The server state and its handlers

  class Server {
    /** The current time in milliseconds; it never goes back. */
    var clock: int
    var themes: seq<Theme>
    var personConfig: map<ThemeId, ConfigRow>
    var prizeConfig: map<ThemeId, ConfigRow>
    var globalConfig: map<ThemeId, ConfigRow>
    var fingerprints: seq<FingerprintRow>
    var accessTokens: seq<TokenRow>

    /**
     * Theme ids are unique, (theme, fingerprint) pairs are unique, and rows of
     * both tables sit in creation order, none created after the clock.
     */
    ghost predicate Valid()
      reads this
    {
      ThemeTableValid(themes, clock) && JoinTableValid(fingerprints, clock)
    }

    function ConfigTable(kind: ConfigKind): map<ThemeId, ConfigRow>
      reads this
    {
      match kind
      case Person => personConfig
      case Prize => prizeConfig
      case Global => globalConfig
    }

    constructor (start: int)
      ensures Valid() && clock == start
      ensures themes == [] && fingerprints == [] && accessTokens == []
      ensures personConfig == map[] && prizeConfig == map[] && globalConfig == map[]
    {
      clock := start;
      themes, fingerprints, accessTokens := [], [], [];
      personConfig, prizeConfig, globalConfig := map[], map[], map[];
    }

    /** Time passes. */
    method Tick(ms: nat)
      requires Valid()
      modifies this`clock
      ensures Valid() && clock == old(clock) + ms
    {
      clock := clock + ms;
    }

    // ----- themes

    /** GET /api/themes: every theme without its password, newest first. */
    method ListThemes() returns (list: seq<ThemeSummary>)
      requires Valid()
      ensures |list| == |themes|
      ensures forall i :: 0 <= i < |list| ==> list[i] == Summary(themes[|themes| - 1 - i])
      ensures forall i, j :: 0 <= i < j < |list| ==> list[i].createdAt >= list[j].createdAt
    {
      var newest := Reverse(themes);
      ReversePairwise(themes, ThemesInOrder);
      list := seq(|newest|, i requires 0 <= i < |newest| => Summary(newest[i]));
    }

    /** GET /api/themes/:id: the theme without its password, or 404. */
    method GetTheme(id: ThemeId) returns (found: Option<ThemeSummary>)
      requires Valid()
      ensures found.None? <==> !ThemeExists(themes, id)
      ensures forall i :: 0 <= i < |themes| && themes[i].id == id ==> found == Some(Summary(themes[i]))
    {
      var row := FindTheme(themes, id);
      found := if row.Some? then Some(Summary(row.value)) else None;
    }

    /** POST /api/themes: insert a theme; a missing description or password is stored as "". */
    method CreateTheme(id: ThemeId, name: string, description: Option<string>, password: Option<string>)
      returns (created: ThemeSummary)
      requires Valid()
      requires !ThemeExists(themes, id)
      modifies this`themes
      ensures Valid()
      ensures themes == old(themes) + [Theme(id, name, OrEmpty(description), OrEmpty(password), clock, clock)]
      ensures created == ThemeSummary(id, name, OrEmpty(description), clock, clock)
    {
      var row := Theme(id, name, OrEmpty(description), OrEmpty(password), clock, clock);
      PairwiseAppend(themes, row, DistinctIds);
      PairwiseAppend(themes, row, ThemesInOrder);
      themes := themes + [row];
      created := Summary(row);
    }

    /**
     * PUT /api/themes/:id: rename and re-describe every row with that id,
     * then reply with the full row, password included (SELECT *), or with
     * nothing when there is no such theme.
     */
    method UpdateTheme(id: ThemeId, name: string, description: Option<string>)
      returns (updated: Option<Theme>)
      requires Valid()
      modifies this`themes
      ensures Valid()
      ensures |themes| == |old(themes)|
      ensures forall i :: 0 <= i < |themes| ==>
                themes[i] == if old(themes)[i].id == id
                             then old(themes)[i].(name := name, description := OrEmpty(description), updatedAt := clock)
                             else old(themes)[i]
      ensures updated.None? <==> !ThemeExists(old(themes), id)
      ensures forall i :: 0 <= i < |themes| && themes[i].id == id ==> updated == Some(themes[i])
    {
      var before, now := themes, clock;
      themes := seq(|before|, i requires 0 <= i < |before| =>
                      if before[i].id == id
                      then before[i].(name := name, description := OrEmpty(description), updatedAt := now)
                      else before[i]);
      RewrittenThemesValid(before, themes, now);
      updated := FindTheme(themes, id);
    }

    /**
     * DELETE /api/themes/:id: 404 for an unknown theme; 403 when the stored
     * password is non-empty and differs from the one given; otherwise the
     * theme's person, prize, global and fingerprint rows and the theme row go.
     * Access tokens are left in place.
     */
    method DeleteTheme(id: ThemeId, password: Option<string>) returns (reply: DeleteReply)
      requires Valid()
      modifies this`themes, this`personConfig, this`prizeConfig, this`globalConfig, this`fingerprints
      ensures Valid()
      ensures reply == match FindTheme(old(themes), id)
                       case None => NotFound
                       case Some(t) => if DeleteAllowed(t.password, password) then Deleted else Forbidden
      ensures reply != Deleted ==>
                themes == old(themes) && fingerprints == old(fingerprints) && personConfig == old(personConfig)
                && prizeConfig == old(prizeConfig) && globalConfig == old(globalConfig)
      ensures reply == Deleted ==>
                themes == Where(old(themes), OtherId(id))
                && fingerprints == Where(old(fingerprints), OutsideTheme(id))
                && personConfig == old(personConfig) - {id}
                && prizeConfig == old(prizeConfig) - {id}
                && globalConfig == old(globalConfig) - {id}
      ensures reply == Deleted ==>
                (forall t :: t in themes <==> t in old(themes) && t.id != id)
                && (forall r :: r in fingerprints <==> r in old(fingerprints) && r.themeId != id)
    {
      var theme := FindTheme(themes, id);
      if theme.None? {
        return NotFound;
      }
      if !DeleteAllowed(theme.value.password, password) {
        return Forbidden;
      }
      personConfig := personConfig - {id};
      prizeConfig := prizeConfig - {id};
      globalConfig := globalConfig - {id};
      WhereMembers(fingerprints, OutsideTheme(id));
      FilteredJoinsValid(fingerprints, clock, OutsideTheme(id));
      WhereMembers(themes, OtherId(id));
      FilteredThemesValid(themes, clock, OtherId(id));
      fingerprints := Where(fingerprints, OutsideTheme(id));
      themes := Where(themes, OtherId(id));
      reply := Deleted;
    }

    // ----- access tokens

    /**
     * POST /api/themes/:id/verify-password: 404 for an unknown theme; on a
     * wrong password `valid: false` and no change; on the right one purge the
     * expired tokens of all themes and add one row for `freshToken`, valid for
     * 24 hours. Earlier tokens of the theme are not revoked.
     */
    method VerifyPassword(id: ThemeId, password: Option<string>, freshToken: string)
      returns (reply: PasswordReply)
      requires Valid()
      modifies this`accessTokens
      ensures Valid()
      ensures !ThemeExists(themes, id) ==> reply == ThemeNotFound && accessTokens == old(accessTokens)
      ensures forall i :: 0 <= i < |themes| && themes[i].id == id && password != Some(themes[i].password) ==>
                reply == Rejected && accessTokens == old(accessTokens)
      ensures forall i :: 0 <= i < |themes| && themes[i].id == id && password == Some(themes[i].password) ==>
                reply == Issued(freshToken, clock + TokenLifetimeMs)
                && accessTokens == PurgeExpired(old(accessTokens), clock) + [IssuedRow(id, freshToken, clock)]
    {
      var theme := FindTheme(themes, id);
      if theme.None? {
        return ThemeNotFound;
      }
      if password != Some(theme.value.password) {
        return Rejected;
      }
      accessTokens := PurgeExpired(accessTokens, clock);
      accessTokens := accessTokens + [TokenRow(id, freshToken, clock + TokenLifetimeMs, clock)];
      reply := Issued(freshToken, clock + TokenLifetimeMs);
    }

    /**
     * POST /api/themes/:id/verify-token: a missing or empty token is refused
     * without touching the table; otherwise purge the expired tokens and
     * answer whether a row of this theme holds the token and expires strictly
     * after now. Whether the theme exists is not checked.
     */
    method VerifyToken(id: ThemeId, token: Option<string>) returns (valid: bool)
      requires Valid()
      modifies this`accessTokens
      ensures Valid()
      ensures !Truthy(token) ==> !valid && accessTokens == old(accessTokens)
      ensures Truthy(token) ==> accessTokens == PurgeExpired(old(accessTokens), clock)
      ensures valid <==> Truthy(token) && TokenAccepted(accessTokens, id, token.value, clock)
      ensures valid <==> Truthy(token) && TokenAccepted(old(accessTokens), id, token.value, clock)
    {
      if !Truthy(token) {
        return false;
      }
      var now := clock;
      PurgeKeepsAcceptance(accessTokens, id, token.value, now);
      accessTokens := PurgeExpired(accessTokens, now);
      TokenLookup(accessTokens, id, token.value, now);
      valid := Where(accessTokens, Live(id, token.value, now)) != [];
    }

    // ----- configuration blobs

    /** GET /api/themes/:themeId/{person,prize,global}: the stored blob, or null when there is no row. */
    method GetConfig(kind: ConfigKind, themeId: ThemeId) returns (data: Option<Blob>)
      ensures data.None? <==> themeId !in ConfigTable(kind)
      ensures data.Some? ==> data.value == ConfigTable(kind)[themeId].data
    {
      var table := ConfigTable(kind);
      data := if themeId in table then Some(table[themeId].data) else None;
    }

    /**
     * POST /api/themes/:themeId/{person,prize,global}: upsert. The row of that
     * theme is updated if there is one and inserted otherwise; either way the
     * theme then has exactly one row, holding the new blob. The theme need not exist.
     */
    method SaveConfig(kind: ConfigKind, themeId: ThemeId, data: Blob)
      requires Valid()
      modifies this`personConfig, this`prizeConfig, this`globalConfig
      ensures Valid()
      ensures ConfigTable(kind) == old(ConfigTable(kind))[themeId := ConfigRow(data, clock)]
      ensures forall other :: other != kind ==> ConfigTable(other) == old(ConfigTable(other))
    {
      var table := ConfigTable(kind);
      if themeId in table {
        table := table[themeId := table[themeId].(data := data, updatedAt := clock)];
      } else {
        table := table[themeId := ConfigRow(data, clock)];
      }
      match kind
      case Person => personConfig := table;
      case Prize => prizeConfig := table;
      case Global => globalConfig := table;
    }

    // ----- fingerprints

    /** GET /api/themes/:themeId/fingerprint/:fingerprint: the recorded row, if any. */
    method CheckFingerprint(themeId: ThemeId, fingerprint: string) returns (found: Option<FingerprintRow>)
      ensures found.Some? <==> HasJoined(fingerprints, themeId, fingerprint)
      ensures found.Some? ==> found.value in fingerprints && found.value.themeId == themeId
                              && found.value.fingerprint == fingerprint
    {
      found := FindFingerprint(fingerprints, themeId, fingerprint);
    }

    /**
     * POST /api/themes/:themeId/fingerprint: `already_joined` and no change
     * when the (theme, fingerprint) pair is recorded; otherwise exactly one
     * row is appended, a missing person name stored as "".
     */
    method RecordFingerprint(themeId: ThemeId, fingerprint: string, personName: Option<string>)
      returns (reply: JoinReply)
      requires Valid()
      modifies this`fingerprints
      ensures Valid()
      ensures HasJoined(old(fingerprints), themeId, fingerprint) ==>
                reply == AlreadyJoined && fingerprints == old(fingerprints)
      ensures !HasJoined(old(fingerprints), themeId, fingerprint) ==>
                reply == Joined
                && fingerprints == old(fingerprints) + [FingerprintRow(themeId, fingerprint, OrEmpty(personName), clock)]
    {
      var existing := FindFingerprint(fingerprints, themeId, fingerprint);
      if existing.Some? {
        return AlreadyJoined;
      }
      var row := FingerprintRow(themeId, fingerprint, OrEmpty(personName), clock);
      NewJoinKeepsPairsUnique(fingerprints, row);
      PairwiseAppend(fingerprints, row, JoinsInOrder);
      fingerprints := fingerprints + [row];
      reply := Joined;
    }

    /** GET /api/themes/:themeId/fingerprints: the theme's rows, each once, newest first. */
    method ListFingerprints(themeId: ThemeId) returns (rows: seq<FingerprintRow>)
      requires Valid()
      ensures forall r :: r in rows <==> r in fingerprints && r.themeId == themeId
      ensures forall i, j :: 0 <= i < j < |rows| ==> rows[i].createdAt >= rows[j].createdAt && rows[i] != rows[j]
    {
      var mine := Where(fingerprints, OfTheme(themeId));
      WhereMembers(fingerprints, OfTheme(themeId));
      WherePairwise(fingerprints, OfTheme(themeId), JoinsInOrder);
      WherePairwise(fingerprints, OfTheme(themeId), DistinctJoins);
      ReversePairwise(mine, JoinsInOrder);
      ReversePairwise(mine, DistinctJoins);
      ReverseMembers(mine);
      rows := Reverse(mine);
    }

    /** DELETE /api/themes/:themeId/fingerprint/by-name/:personName: drop that person's rows of the theme. */
    method DeleteFingerprintsByName(themeId: ThemeId, personName: string)
      requires Valid()
      modifies this`fingerprints
      ensures Valid()
      ensures fingerprints == Where(old(fingerprints), NotNamed(themeId, personName))
      ensures forall r :: r in fingerprints <==>
                r in old(fingerprints) && !(r.themeId == themeId && r.personName == personName)
    {
      WhereMembers(fingerprints, NotNamed(themeId, personName));
      FilteredJoinsValid(fingerprints, clock, NotNamed(themeId, personName));
      fingerprints := Where(fingerprints, NotNamed(themeId, personName));
    }
  }
}
