/** Normalising the demo's configuration inputs: `clampInt` for the numeric
    settings and `normalizeUrl` for the service URLs. */
module Config {
  import opened Wrappers
  import opened Text

  /** `Math.trunc`: rounds toward zero. */
  function Trunc(x: real): (n: int)
    ensures 0.0 <= x ==> n as real <= x < n as real + 1.0
    ensures x < 0.0 ==> n as real - 1.0 < x <= n as real
  {
    if x >= 0.0 then x.Floor else -((-x).Floor)
  }

  function Min(a: int, b: int): int { if a <= b then a else b }

  function Max(a: int, b: int): int { if a >= b then a else b }

  /** `clampInt(v, def, min, max)`. The input is `Number(v)`: `None` stands for
      a value that is not finite (NaN or an infinity), which yields the
      default; a finite value is truncated and then clamped. When `min > max`
      the outer `Math.max` wins and the result is `min`. */
  function ClampInt(v: Option<real>, def: int, min: int, max: int): (r: int)
    ensures v.None? ==> r == def
    ensures v.Some? && min <= max ==> min <= r <= max
    ensures v.Some? && min <= Trunc(v.value) <= max ==> r == Trunc(v.value)
    ensures v.Some? && Trunc(v.value) < min ==> r == min
    ensures v.Some? && max < Trunc(v.value) ==> r == Max(min, max)
  {
    match v
    case None => def
    case Some(x) => Max(min, Min(max, Trunc(x)))
  }

  /** The numeric settings the demo reads at start-up, after clamping. */
  datatype Settings = Settings(
    tenantId: int, httpTimeoutMs: int, enrichWaitMs: int, contextLimit: int, maxChars: int)

  /** The value a setting takes for the input `v` when its range is
      `[lo, hi]` and its default `def`: the default when `v` is not finite,
      otherwise the truncation of `v`, moved to the nearer bound when it lies
      outside the range. */
  predicate SettingFrom(v: Option<real>, def: int, lo: int, hi: int, x: int) {
    && (v.None? ==> x == def)
    && (v.Some? && lo <= Trunc(v.value) <= hi ==> x == Trunc(v.value))
    && (v.Some? && Trunc(v.value) < lo ==> x == lo)
    && (v.Some? && hi < Trunc(v.value) ==> x == hi)
  }

  /** The clamped settings, each argument being `Number(...)` of the
      corresponding environment variable (`None` when not finite, as for an
      unset variable). */
  function DemoSettings(tenant: Option<real>, timeout: Option<real>, wait: Option<real>,
                        limit: Option<real>, chars: Option<real>): (s: Settings)
    ensures 1 <= s.tenantId <= 2_000_000_000
    ensures 1_000 <= s.httpTimeoutMs <= 120_000
    ensures 1_000 <= s.enrichWaitMs <= 300_000
    ensures 1 <= s.contextLimit <= 50
    ensures 200 <= s.maxChars <= 20_000
    ensures SettingFrom(tenant, 1, 1, 2_000_000_000, s.tenantId)
    ensures SettingFrom(timeout, 15_000, 1_000, 120_000, s.httpTimeoutMs)
    ensures SettingFrom(wait, 30_000, 1_000, 300_000, s.enrichWaitMs)
    ensures SettingFrom(limit, 8, 1, 50, s.contextLimit)
    ensures SettingFrom(chars, 1200, 200, 20_000, s.maxChars)
  {
    Settings(
      ClampInt(tenant, 1, 1, 2_000_000_000),
      ClampInt(timeout, 15_000, 1_000, 120_000),
      ClampInt(wait, 30_000, 1_000, 300_000),
      ClampInt(limit, 8, 1, 50),
      ClampInt(chars, 1200, 200, 20_000))
  }

  /** `s.replace(/\/+$/, "")`: the longest prefix of `s` that does not end
      with `/`, everything after it being slashes. */
  function StripTrailingSlashes(s: string): (r: string)
    ensures |r| <= |s| && r == s[..|r|]
    ensures r == [] || r[|r| - 1] != '/'
    ensures forall i :: |r| <= i < |s| ==> s[i] == '/'
  {
    if s != [] && s[|s| - 1] == '/' then StripTrailingSlashes(s[..|s| - 1]) else s
  }

  /** `normalizeUrl(u)`: trims, then drops the trailing slashes. The result
      never ends with `/`, is a prefix of the trimmed input, and what was
      dropped from the trimmed input is slashes only. */
  function NormalizeUrl(u: string): (r: string)
    ensures r == [] || r[|r| - 1] != '/'
    ensures |r| <= |Trim(u)| && r == Trim(u)[..|r|]
    ensures forall i :: |r| <= i < |Trim(u)| ==> Trim(u)[i] == '/'
    ensures r != [] ==> !IsTrimmable(r[0])
  {
    StripTrailingSlashes(Trim(u))
  }

  /** `normalizeUrl` is idempotent on inputs whose normalised form does not
      end in white space. */
  lemma NormalizeUrlIdempotentWhenNoTrailingSpace(u: string)
    requires var r := NormalizeUrl(u); r == [] || !IsTrimmable(r[|r| - 1])
    ensures NormalizeUrl(NormalizeUrl(u)) == NormalizeUrl(u)
  {
    var r := NormalizeUrl(u);
    TrimFixesTrimmed(r);
    assert StripTrailingSlashes(r) == r;
  }

  /** Idempotence fails in general: white space before the trailing slashes
      survives the first pass and is trimmed by the second. For a host `h`
      such as `"h"`, `"h /"` becomes `"h "` and then `"h"`. */
  lemma NormalizeUrlNotIdempotent(h: string)
    requires h != [] && !IsTrimmable(h[0]) && !IsTrimmable(h[|h| - 1]) && h[|h| - 1] != '/'
    ensures NormalizeUrl(h + " /") == h + " "
    ensures NormalizeUrl(NormalizeUrl(h + " /")) == h
  {
    var u, v := h + " /", h + " ";
    assert u[0] == h[0] && u[|u| - 1] == '/' && u[..|u| - 1] == v;
    TrimFixesTrimmed(u);
    assert StripTrailingSlashes(u) == v;
    assert v[0] == h[0] && v[|v| - 1] == ' ' && v[..|v| - 1] == h;
    assert Trim(v) == h by {
      assert TrimStart(v) == v;
      assert TrimEnd(v) == TrimEnd(h);
      TrimFixesTrimmed(h);
    }
    assert StripTrailingSlashes(h) == h;
  }

  /** Drops trailing slashes and trailing white space together, so that
      neither can be left at the end. */
  function StripTrailingSlashesAndSpace(s: string): (r: string)
    ensures |r| <= |s| && r == s[..|r|]
    ensures r == [] || (r[|r| - 1] != '/' && !IsTrimmable(r[|r| - 1]))
    ensures forall i :: |r| <= i < |s| ==> s[i] == '/' || IsTrimmable(s[i])
  {
    if s != [] && (s[|s| - 1] == '/' || IsTrimmable(s[|s| - 1])) then
      StripTrailingSlashesAndSpace(s[..|s| - 1])
    else s
  }

  /** The evidently intended normalisation: no surrounding white space and no
      trailing slash, whatever white space sits between the slashes. */
  function NormalizeUrlStable(u: string): (r: string)
    ensures r == [] || (r[|r| - 1] != '/' && !IsTrimmable(r[|r| - 1]) && !IsTrimmable(r[0]))
    ensures |r| <= |TrimStart(u)| && r == TrimStart(u)[..|r|]
    ensures forall i :: |r| <= i < |TrimStart(u)| ==> TrimStart(u)[i] == '/' || IsTrimmable(TrimStart(u)[i])
  {
    StripTrailingSlashesAndSpace(TrimStart(u))
  }

  /** The corrected normalisation is idempotent on every input. */
  lemma NormalizeUrlStableIdempotent(u: string)
    ensures NormalizeUrlStable(NormalizeUrlStable(u)) == NormalizeUrlStable(u)
  {
    var r := NormalizeUrlStable(u);
    assert TrimStart(r) == r;
    assert StripTrailingSlashesAndSpace(r) == r;
  }

  /** Where the demo's own normalisation leaves no trailing white space, the
      corrected one agrees with it. */
  lemma NormalizeUrlStableAgrees(u: string)
    requires var r := NormalizeUrl(u); r == [] || !IsTrimmable(r[|r| - 1])
    ensures NormalizeUrlStable(u) == NormalizeUrl(u)
  {
    var t0 := TrimStart(u);
    var t := TrimEnd(t0);
    var r := StripTrailingSlashes(t);
    TrimEndDropsTrimmable(t0);
    assert r == t0[..|r|];
    forall i | |r| <= i < |t0| ensures t0[i] == '/' || IsTrimmable(t0[i]) {
      if i < |t| { assert t0[i] == t[i]; }
    }
    StripSuffix(t0, r);
  }

  /** Stripping slashes and white space from `s` stops at `r` when `r` is a
      prefix of `s` that ends in neither and only slashes and white space
      follow it. */
  lemma {:induction false} StripSuffix(s: string, r: string)
    requires |r| <= |s| && r == s[..|r|]
    requires r == [] || (r[|r| - 1] != '/' && !IsTrimmable(r[|r| - 1]))
    requires forall i :: |r| <= i < |s| ==> s[i] == '/' || IsTrimmable(s[i])
    ensures StripTrailingSlashesAndSpace(s) == r
    decreases |s|
  {
    if |s| > |r| {
      StripSuffix(s[..|s| - 1], r);
    }
  }
}
