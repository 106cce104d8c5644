/** The rules of backend/logging_setup.py on ASCII text, and that they are proper. */
module ScrubRules {
  import opened CoordinateScrub
  import opened Scrub

  predicate Digit(c: char) {
    '0' <= c <= '9'
  }

  predicate Letter(c: char) {
    'a' <= c <= 'z' || c == '_'
  }

  function Lower(c: char): char {
    if 'A' <= c <= 'Z' then c + (32 as char) else c
  }

  predicate Word(c: char) {
    Letter(Lower(c)) || Digit(c)
  }

  /** What ends a value: `&`, `#`, quotes, angle brackets and white space. */
  predicate Stop(c: char) {
    c == '&' || c == '#' || c == '"' || c == '\'' || c == '<' || c == '>' || c == ' ' || 9 <= c as int <= 13 || 28 <= c as int <= 31
  }

  /** Credentials, then positions. */
  function SensitiveNames(): seq<string> {
    ["access_token", "api_key", "apikey", "auth", "key", "password", "secret", "signature", "token"]
    + ["bbox", "ggscoord", "lat", "latitude", "lon", "lng", "longitude", "point"]
  }

  function AsciiRules(names: seq<string>): Rules {
    Rules(Digit, Word, Stop, (c, k) => Lower(c) == k, names)
  }

  predicate Lettered(name: string) {
    name != "" && All(Letter, name)
  }

  lemma NamesAreLettered(name: string)
    requires name in SensitiveNames()
    ensures Lettered(name)
  {
  }

  lemma InLetteredName(names: seq<string>, c: char)
    requires (forall name | name in names :: Lettered(name)) && InName(AsciiRules(names), c)
    ensures Letter(Lower(c))
  {
    var name, i :| name in names && 0 <= i < |name| && Lower(c) == name[i];
    assert Lettered(name);
  }

  lemma MarkIsLettered()
    ensures DigitTest(Digit) && forall i | 0 < i < |MARK| - 1 :: Word(MARK[i])
  {
  }

  lemma LetteredIsProper(names: seq<string>)
    requires forall name | name in names :: Lettered(name)
    ensures Proper(AsciiRules(names))
  {
    var r := AsciiRules(names);
    MarkIsLettered();
    forall c | InName(r, c) ensures Letter(Lower(c)) { InLetteredName(names, c); }
  }

  lemma ActualRulesAreProper()
    ensures Proper(AsciiRules(SensitiveNames()))
  {
    forall name | name in SensitiveNames() ensures Lettered(name) { NamesAreLettered(name); }
    LetteredIsProper(SensitiveNames());
  }
}
