/** The command-line switch that moves the SSL mode, and what is handed to the library afterwards. */
module SslOptions {
  import opened Optional

  const DISABLED := 1
  const PREFERRED := 2
  const REQUIRED := 3
  const VERIFY_CA := 4
  const VERIFY_IDENTITY := 5

  type Mode = m: int | DISABLED <= m <= VERIFY_IDENTITY witness PREFERRED

  /** Options that reach the switch; find_type_or_exit lets only valid mode names through. */
  datatype SslOption = SslMode(mode: Mode) | Ssl(arg: bool) | VerifyServerCert(arg: bool) | Ca | CaPath | OtherSsl

  datatype Setting = Setting(mode: Mode, explicitly: bool)

  const INITIAL := Setting(PREFERRED, false)

  function Next(s: Setting, opt: SslOption): Setting {
    match opt
    case SslMode(m) => Setting(m, true)
    case Ssl(arg) => if !arg then s.(mode := DISABLED) else if s.mode < REQUIRED then s.(mode := REQUIRED) else s
    case VerifyServerCert(arg) =>
      if arg then s.(mode := VERIFY_IDENTITY)
      else if s.mode >= VERIFY_IDENTITY then s.(mode := VERIFY_CA) else s
    case Ca => if s.explicitly then s else s.(mode := VERIFY_CA)
    case CaPath => if s.explicitly then s else s.(mode := VERIFY_CA)
    case OtherSsl => s
  }

  function Run(s: Setting, opts: seq<SslOption>): Setting
    decreases |opts|
  {
    if opts == [] then s else Run(Next(s, opts[0]), opts[1..])
  }

  class Options {
    var optSslMode: Mode
    var sslModeSetExplicitly: bool

    constructor ()
      ensures Current() == INITIAL && optSslMode == 2 && !sslModeSetExplicitly
    {
      optSslMode := PREFERRED;
      sslModeSetExplicitly := false;
    }

    function Current(): Setting reads this {
      Setting(optSslMode, sslModeSetExplicitly)
    }

    method GetOneOption(opt: SslOption)
      modifies this
      ensures Current() == Next(old(Current()), opt)
      ensures var r := RangeOf(opt, old(sslModeSetExplicitly));
        optSslMode == Clamp(r.lo, r.hi, old(optSslMode)) && Proper(r)
      // by option: named mode, --ssl, --ssl-verify-server-cert, --ssl-ca and --ssl-capath, any other
      ensures opt.SslMode? ==> optSslMode == opt.mode && sslModeSetExplicitly
      ensures !opt.SslMode? ==> sslModeSetExplicitly == old(sslModeSetExplicitly)
      ensures opt.Ssl? && !opt.arg ==> optSslMode == 1
      ensures opt.Ssl? && opt.arg ==> optSslMode == if old(optSslMode) < 3 then 3 else old(optSslMode)
      ensures opt.VerifyServerCert? && opt.arg ==> optSslMode == 5
      ensures opt.VerifyServerCert? && !opt.arg ==> optSslMode == if old(optSslMode) > 4 then 4 else old(optSslMode)
      ensures (opt.Ca? || opt.CaPath?) ==> optSslMode == if old(sslModeSetExplicitly) then old(optSslMode) else 4
      ensures opt.OtherSsl? ==> optSslMode == old(optSslMode)
    {
      match opt
      case SslMode(m) =>
        optSslMode := m;
        sslModeSetExplicitly := true;
      case Ssl(arg) =>
        if !arg {
          optSslMode := DISABLED;
        } else if optSslMode < REQUIRED {
          optSslMode := REQUIRED;
        }
      case VerifyServerCert(arg) =>
        if !arg {
          if optSslMode >= VERIFY_IDENTITY {
            optSslMode := VERIFY_CA;
          }
        } else {
          optSslMode := VERIFY_IDENTITY;
        }
      case Ca =>
        if !sslModeSetExplicitly {
          optSslMode := VERIFY_CA;
        }
      case CaPath =>
        if !sslModeSetExplicitly {
          optSslMode := VERIFY_CA;
        }
      case OtherSsl =>
    }

    /** The CA arguments of mysql_ssl_set, and whether the warning is printed. */
    method SetClientSslOptions<T>(ca: Option<T>, caPath: Option<T>)
      returns (caArg: Option<T>, caPathArg: Option<T>, warned: bool)
      ensures caArg == (if optSslMode == 4 || optSslMode == 5 then ca else None)
      ensures caPathArg == (if optSslMode == 4 || optSslMode == 5 then caPath else None)
      ensures warned <==> sslModeSetExplicitly && (ca.Some? || caPath.Some?) && caArg.None? && caPathArg.None?
    {
      warned := sslModeSetExplicitly && optSslMode < VERIFY_CA && (ca.Some? || caPath.Some?);
      if optSslMode >= VERIFY_CA {
        caArg, caPathArg := ca, caPath;
      } else {
        caArg, caPathArg := None, None;
      }
    }
  }

  // ----- every sequence of options is a clamp -----

  function Clamp(lo: int, hi: int, m: int): int {
    if m < lo then lo else if m > hi then hi else m
  }

  datatype Range = Range(lo: Mode, hi: Mode)

  predicate Proper(r: Range) {
    r.lo <= r.hi
  }

  function RangeOf(opt: SslOption, explicitly: bool): Range {
    match opt
    case SslMode(m) => Range(m, m)
    case Ssl(arg) => if arg then Range(REQUIRED, VERIFY_IDENTITY) else Range(DISABLED, DISABLED)
    case VerifyServerCert(arg) => if arg then Range(VERIFY_IDENTITY, VERIFY_IDENTITY) else Range(DISABLED, VERIFY_CA)
    case OtherSsl => Range(DISABLED, VERIFY_IDENTITY)
    case _ => if explicitly then Range(DISABLED, VERIFY_IDENTITY) else Range(VERIFY_CA, VERIFY_CA)
  }

  function Compose(first: Range, second: Range): (r: Range)
    requires Proper(first) && Proper(second)
    ensures Proper(r)
  {
    Range(Clamp(second.lo, second.hi, first.lo), Clamp(second.lo, second.hi, first.hi))
  }

  /** One clamp after another is again a clamp. */
  lemma ComposeClamps(first: Range, second: Range, m: int)
    requires Proper(first) && Proper(second)
    ensures var r := Compose(first, second);
      Clamp(second.lo, second.hi, Clamp(first.lo, first.hi, m)) == Clamp(r.lo, r.hi, m)
  {
  }

  lemma StepIsClamp(s: Setting, opt: SslOption)
    ensures var r := RangeOf(opt, s.explicitly);
      Proper(r) && Next(s, opt).mode == Clamp(r.lo, r.hi, s.mode)
  {
  }

  /** The range depends on the options and the explicit flag, not on the mode one starts from. */
  function RangeOfAll(explicitly: bool, opts: seq<SslOption>): (r: Range)
    ensures Proper(r)
    decreases |opts|
  {
    if opts == [] then Range(DISABLED, VERIFY_IDENTITY) else
      Compose(RangeOf(opts[0], explicitly), RangeOfAll(explicitly || opts[0].SslMode?, opts[1..]))
  }

  lemma {:induction false} RunIsClamp(s: Setting, opts: seq<SslOption>)
    ensures var r := RangeOfAll(s.explicitly, opts);
      Run(s, opts).mode == Clamp(r.lo, r.hi, s.mode)
    decreases |opts|
  {
    if opts != [] {
      StepIsClamp(s, opts[0]);
      var s' := Next(s, opts[0]);
      RunIsClamp(s', opts[1..]);
      assert s'.explicitly == (s.explicitly || opts[0].SslMode?);
      ComposeClamps(RangeOf(opts[0], s.explicitly), RangeOfAll(s'.explicitly, opts[1..]), s.mode);
    }
  }

  /** So a stricter start never ends less strict. */
  lemma RunIsMonotone(a: Mode, b: Mode, explicitly: bool, opts: seq<SslOption>)
    requires a <= b
    ensures Run(Setting(a, explicitly), opts).mode <= Run(Setting(b, explicitly), opts).mode
  {
    RunIsClamp(Setting(a, explicitly), opts);
    RunIsClamp(Setting(b, explicitly), opts);
  }

  /** From the initial state the CA arguments are used exactly when the options alone force verification. */
  lemma CaUsedIff(opts: seq<SslOption>)
    ensures Run(INITIAL, opts).mode >= VERIFY_CA <==> RangeOfAll(false, opts).lo >= VERIFY_CA
  {
    RunIsClamp(INITIAL, opts);
  }

  /** Once a mode was named, --ssl-ca and --ssl-capath may stand anywhere in the rest or not at all. */
  function WithoutCa(opts: seq<SslOption>): seq<SslOption> {
    if opts == [] then [] else
      (if opts[0] == Ca || opts[0] == CaPath then [] else [opts[0]]) + WithoutCa(opts[1..])
  }

  lemma {:induction false} ExplicitIgnoresCa(s: Setting, opts: seq<SslOption>)
    requires s.explicitly
    ensures Run(s, opts) == Run(s, WithoutCa(opts))
    decreases |opts|
  {
    if opts != [] {
      ExplicitIgnoresCa(Next(s, opts[0]), opts[1..]);
      var rest := WithoutCa(opts[1..]);
      if opts[0] == Ca || opts[0] == CaPath {
        assert [] + rest == rest;
      } else {
        assert ([opts[0]] + rest)[1..] == rest;
      }
    }
  }
}
