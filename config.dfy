/** The database connection key assembled from the configuration's settings. */
module Config {
  import opened Common
  import opened Models

  const Scheme: string := "postgres://"
  const Options: string := "?sslmode=disable"

  /**
   * `KeyGath`: the empty key when any setting is missing, otherwise a
   * Postgres URL with the five settings pasted in verbatim (nothing is escaped).
   */
  function KeyGath(conf: Database): (key: string)
    ensures key == "" <==>
      conf.host == "" || conf.port == "" || conf.user == "" || conf.password == "" || conf.name == ""
    ensures key != "" ==>
      |key| == |Scheme| + |conf.user| + |conf.password| + |conf.host| + |conf.port| + |conf.name| + 4 + |Options| &&
      key[..|Scheme|] == Scheme && key[|key| - |Options|..] == Options
  {
    if conf.host == "" || conf.port == "" || conf.user == "" || conf.password == "" || conf.name == "" then
      ""
    else
      Scheme + conf.user + ":" + conf.password + "@" + conf.host + ":" + conf.port + "/" + conf.name + Options
  }

  /** Splits at the first occurrence of `c`. */
  function SplitAt(s: string, c: char): (r: Option<(string, string)>)
    ensures r.None? <==> c !in s
    ensures r.Some? ==> c !in r.value.0 && s == r.value.0 + [c] + r.value.1
  {
    if s == [] then None
    else if s[0] == c then Some(([], s[1..]))
    else
      match SplitAt(s[1..], c)
      case None => None
      case Some(parts) => Some(([s[0]] + parts.0, parts.1))
  }

  lemma SplitAtFirst(a: string, c: char, b: string)
    requires c !in a
    ensures SplitAt(a + [c] + b, c) == Some((a, b))
  {
    var s := a + [c] + b;
    var r := SplitAt(s, c);
    var x := r.value.0;
    assert s[|x|] == c && s[|a|] == c;
    assert |x| == |a| by {
      assert forall i | 0 <= i < |a| :: s[i] == a[i];
      assert forall i | 0 <= i < |x| :: s[i] == x[i];
    }
    assert x == s[..|a|] == a;
    assert r.value.1 == s[|a| + 1..] == b;
  }

  /** Reads the five settings back from a key, splitting at the first of each separator. */
  function ParseKey(key: string): Option<Database>
  {
    if |key| >= |Scheme| + |Options| && key[..|Scheme|] == Scheme && key[|key| - |Options|..] == Options then
      var rest := key[|Scheme|..|key| - |Options|];
      match SplitAt(rest, ':')
      case None => None
      case Some(p1) =>
        match SplitAt(p1.1, '@')
        case None => None
        case Some(p2) =>
          match SplitAt(p2.1, ':')
          case None => None
          case Some(p3) =>
            match SplitAt(p3.1, '/')
            case None => None
            case Some(p4) => Some(Database(p3.0, p4.0, p1.0, p2.0, p4.1))
    else
      None
  }

  /**
   * The settings appear in the key verbatim in the order user, password,
   * host, port, name: when none of them holds the separator that follows it,
   * they can be read back.
   */
  lemma KeyGathRoundTrip(conf: Database)
    requires conf.host != "" && conf.port != "" && conf.user != "" && conf.password != "" && conf.name != ""
    requires ':' !in conf.user && '@' !in conf.password && ':' !in conf.host && '/' !in conf.port
    ensures ParseKey(KeyGath(conf)) == Some(conf)
  {
    var r3 := conf.port + "/" + conf.name;
    var r2 := conf.host + ":" + r3;
    var r1 := conf.password + "@" + r2;
    var rest := conf.user + ":" + r1;
    var key := KeyGath(conf);
    KeyGathShape(conf);
    assert key[|Scheme|..|key| - |Options|] == rest;
    SplitAtFirst(conf.user, ':', r1);
    SplitAtFirst(conf.password, '@', r2);
    SplitAtFirst(conf.host, ':', r3);
    SplitAtFirst(conf.port, '/', conf.name);
  }

  /** The key of a complete configuration, with the settings grouped from the right. */
  lemma KeyGathShape(conf: Database)
    requires conf.host != "" && conf.port != "" && conf.user != "" && conf.password != "" && conf.name != ""
    ensures KeyGath(conf) ==
      Scheme + (conf.user + ":" + (conf.password + "@" + (conf.host + ":" + (conf.port + "/" + conf.name)))) + Options
  {
  }

  /** Without escaping, two different configurations can produce the same key. */
  lemma KeyGathDoesNotEscape()
    ensures KeyGath(Database("db", "5432", "a:b", "c", "subs")) == KeyGath(Database("db", "5432", "a", "b:c", "subs"))
  {
    var tail := "@" + ("db" + ":" + ("5432" + "/" + "subs"));
    KeyGathShape(Database("db", "5432", "a:b", "c", "subs"));
    KeyGathShape(Database("db", "5432", "a", "b:c", "subs"));
    assert "a:b" + ":" + ("c" + tail) == "a" + ":" + ("b:c" + tail) by {
      assert "a:b" + ":" + "c" == "a" + ":" + "b:c";
    }
  }
}
