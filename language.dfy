/**
 * The translation function `t(key, variables)` of the language context:
 * look the key up in the table of the chosen language, fall back to the
 * key itself, then replace each `{name}` placeholder by the value supplied
 * for `name`, one variable after the other.
 */
module Language {
  import opened Strings

  datatype Lang = En | Hi

  /** A value supplied for a placeholder: a string or a number. */
  datatype Variable = Text(s: string) | Number(n: int)

  /** `String(value)`. */
  function Display(v: Variable): (r: string)
    ensures v.Text? ==> r == v.s
    ensures v.Number? ==> r == IntToString(v.n)
  {
    match v
    case Text(s) => s
    case Number(n) => IntToString(n)
  }

  /** The placeholder a variable replaces. */
  function Placeholder(name: string): (p: string)
    ensures |p| == |name| + 2 && p[0] == '{' && p[|p| - 1] == '}'
  {
    "{" + name + "}"
  }

  /** `langTranslations[key] || key`: a missing or empty entry gives the key. */
  function Entry(table: map<string, string>, key: string): (s: string)
    ensures key in table && table[key] != "" ==> s == table[key]
    ensures key !in table || table[key] == "" ==> s == key
  {
    if key in table && table[key] != "" then table[key] else key
  }

  /**
   * The substitutions in the order of the variables' keys, each applied to
   * the result of the ones before it.
   */
  function Substitute(text: string, variables: seq<(string, Variable)>): string
    decreases |variables|
  {
    if variables == [] then text
    else
      var (name, value) := variables[|variables| - 1];
      ReplaceAll(Substitute(text, variables[..|variables| - 1]), Placeholder(name), Display(value))
  }

  /**
   * `t(key, variables)`: the key itself while the tables load or when the
   * language has no table; otherwise the entry, or the key, with the
   * variables substituted.
   */
  function T(loading: bool, tables: map<Lang, map<string, string>>, language: Lang,
             key: string, variables: seq<(string, Variable)>): (r: string)
    ensures loading ==> r == key
    ensures !loading && language !in tables ==> r == key
    ensures !loading && language in tables ==> r == Substitute(Entry(tables[language], key), variables)
  {
    if loading then key
    else if language !in tables then key
    else Substitute(Entry(tables[language], key), variables)
  }

  /** Substituting a list of variables is substituting its first part, then the rest. */
  lemma {:induction false} SubstituteAppend(text: string, a: seq<(string, Variable)>, b: seq<(string, Variable)>)
    ensures Substitute(text, a + b) == Substitute(Substitute(text, a), b)
    decreases |b|
  {
    if b == [] {
      assert a + b == a;
    } else {
      SubstituteAppend(text, a, b[..|b| - 1]);
      assert (a + b)[..|a + b| - 1] == a + b[..|b| - 1];
      assert (a + b)[|a + b| - 1] == b[|b| - 1];
    }
  }

  /** So the substitutions happen one variable at a time, first key first. */
  lemma OneAtATime(text: string, first: (string, Variable), rest: seq<(string, Variable)>)
    ensures Substitute(text, [first] + rest) ==
            Substitute(ReplaceAll(text, Placeholder(first.0), Display(first.1)), rest)
  {
    SubstituteAppend(text, [first], rest);
    assert [first][..0] == [];
  }

  /**
   * A text with no placeholder of any supplied variable comes back as it
   * is: with no variables at all, and with placeholders nobody supplied.
   */
  lemma {:induction false} NoPlaceholderUnchanged(text: string, variables: seq<(string, Variable)>)
    requires forall i :: 0 <= i < |variables| ==> !Contains(text, Placeholder(variables[i].0))
    ensures Substitute(text, variables) == text
    decreases |variables|
  {
    if variables != [] {
      var init := variables[..|variables| - 1];
      NoPlaceholderUnchanged(text, init);
      ReplaceAbsent(text, Placeholder(variables[|variables| - 1].0), Display(variables[|variables| - 1].1));
    }
  }

  /**
   * A single occurrence of `{name}` is replaced by the value's text and the
   * rest of the entry is kept.
   */
  lemma FillOne(u: string, name: string, v: string, value: Variable)
    requires !Contains(u + "{" + name, Placeholder(name))
    requires !Contains(v, Placeholder(name))
    ensures Substitute(u + Placeholder(name) + v, [(name, value)]) == u + Display(value) + v
  {
    var p := Placeholder(name);
    assert u + p[..|p| - 1] == u + "{" + name;
    ReplaceFirst(u, p, Display(value), v);
    ReplaceAbsent(v, p, Display(value));
    assert [(name, value)][..0] == [];
  }

  /** The forward `forEach` of `t`: `translation` is rewritten once per variable. */
  method Translate(loading: bool, tables: map<Lang, map<string, string>>, language: Lang,
                   key: string, variables: seq<(string, Variable)>) returns (translation: string)
    ensures translation == T(loading, tables, language, key, variables)
  {
    if loading {
      return key;
    }
    if language !in tables {
      return key;
    }
    var entry := Entry(tables[language], key);
    translation := entry;
    for i := 0 to |variables|
      invariant translation == Substitute(entry, variables[..i])
    {
      assert variables[..i + 1][..i] == variables[..i];
      var (name, value) := variables[i];
      translation := ReplaceAll(translation, Placeholder(name), Display(value));
    }
    assert variables[..|variables|] == variables;
  }
}
