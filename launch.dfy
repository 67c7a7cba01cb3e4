/**
 * The browser launch settings of one profile: the tri-state headless
 * parse and the launch options dict, in the two revisions of the source
 * (browser/instance.py adds block_images, run_camoufox.py does not).
 */
module Launch {
  import opened Wrappers
  import opened Json

  /** A resolved profile configuration (a YAML mapping). */
  type Config = map<string, Value>

  /** `True`, `False` or `'virtual'` as passed to the browser. */
  datatype HeadlessMode = HeadlessOn | HeadlessOff | Virtual

  datatype Proxy = Proxy(server: Value, bypass: string)

  /** The keyword arguments of the browser launch; `blockImages` is None when
      the key is not set at all. */
  datatype LaunchOptions = LaunchOptions(headless: HeadlessMode, proxy: Option<Proxy>, blockImages: Option<bool>)

  const ProxyBypass: string := "localhost, 127.0.0.1"

  /** `config.get('headless', 'virtual')`. */
  function HeadlessSetting(config: Config): Value {
    if "headless" in config then config["headless"] else Str("virtual")
  }

  /** The tri-state parse of a headless setting. */
  function ParseHeadless(setting: Value): (m: HeadlessMode)
    ensures m == HeadlessOn <==> LowerText(setting) == "true"
    ensures m == HeadlessOff <==> LowerText(setting) == "false"
    ensures setting.Bool? ==> m == (if setting.b then HeadlessOn else HeadlessOff)
    ensures setting == Null ==> m == Virtual
  {
    var text := LowerText(setting);
    if text == "true" then HeadlessOn
    else if text == "false" then HeadlessOff
    else Virtual
  }

  /** An absent setting gives the virtual display. */
  lemma HeadlessDefaultsToVirtual(config: Config)
    requires "headless" !in config
    ensures ParseHeadless(HeadlessSetting(config)) == Virtual
  {
    assert |LowerText(Str("virtual"))| == 7;
  }

  /** The parse ignores case: `"TRUE"` and `"False"` are read as booleans. */
  lemma HeadlessIgnoresCase()
    ensures ParseHeadless(Str("TRUE")) == HeadlessOn
    ensures ParseHeadless(Str("False")) == HeadlessOff
  {
    var t := "TRUE";
    assert forall i :: 0 <= i < |t| ==> LowerChar(t[i]) == "true"[i];
    assert LowerText(Str(t)) == "true";
    var f := "False";
    assert forall i :: 0 <= i < |f| ==> LowerChar(f[i]) == "false"[i];
    assert LowerText(Str(f)) == "false";
  }

  /** The launch options of run_camoufox.py: headless mode, and a proxy
      entry only when a proxy is configured. */
  function LegacyLaunchOptions(config: Config): (o: LaunchOptions)
    ensures o.headless == ParseHeadless(HeadlessSetting(config))
    ensures o.proxy.Some? <==> "proxy" in config && Truthy(config["proxy"])
    ensures o.proxy.Some? ==> o.proxy.value == Proxy(config["proxy"], ProxyBypass)
    ensures o.blockImages.None?
  {
    var proxy := if "proxy" in config then config["proxy"] else Null;
    LaunchOptions(
      ParseHeadless(HeadlessSetting(config)),
      if Truthy(proxy) then Some(Proxy(proxy, ProxyBypass)) else None,
      None)
  }

  /** The launch options of browser/instance.py, built key by key: the same
      entries as run_camoufox.py, and images are always blocked. */
  method BuildLaunchOptions(config: Config) returns (o: LaunchOptions)
    ensures o == LegacyLaunchOptions(config).(blockImages := Some(true))
    ensures o.blockImages == Some(true)
    ensures o.headless == ParseHeadless(HeadlessSetting(config))
    ensures o.proxy.Some? <==> "proxy" in config && Truthy(config["proxy"])
    ensures o.proxy.Some? ==> o.proxy.value == Proxy(config["proxy"], ProxyBypass)
  {
    var headless := ParseHeadless(HeadlessSetting(config));
    o := LaunchOptions(headless, None, None);
    var proxy := if "proxy" in config then config["proxy"] else Null;
    if Truthy(proxy) {
      o := o.(proxy := Some(Proxy(proxy, ProxyBypass)));
    }
    o := o.(blockImages := Some(true));
  }
}
