/**
 * Entries of the desired-state file `dev_boxes.yml` as `yaml.safe_load`
 * hands them to the scripts: each field read with `box.get(...)`.
 */
module Desired {
  /**
   * One field value: missing or null (`Absent`), a YAML string (`Text`), or
   * any other YAML value (a date, a number, a boolean, a list, a mapping),
   * kept as what `str()` renders it to, whether Python finds it truthy, and
   * whether it can be a set element or a dict key (a list or a mapping
   * cannot).
   */
  datatype Field = Absent | Text(s: string) | Other(shown: string, truthy: bool, hashable: bool)

  /** One record of the file: `key` (the GitHub user), `name` and `until`. */
  datatype Entry = Entry(key: Field, name: Field, until: Field)

  /** Python truthiness of the field value. */
  predicate Truthy(f: Field) {
    match f
    case Absent => false
    case Text(s) => s != ""
    case Other(_, t, _) => t
  }

  /** `if until and not isinstance(until, str): until = str(until)`. */
  function Stringified(f: Field): (g: Field)
    ensures Truthy(f) && !f.Text? ==> g == Text(f.shown)
    ensures Truthy(g) ==> g.Text? && g.s != ""
    ensures f.Text? || !Truthy(f) ==> g == f
  {
    if Truthy(f) && !f.Text? then Text(f.shown) else f
  }

  /**
   * Some record has a truthy `name` that cannot be a set element or a dict
   * key; collecting the names then raises TypeError.
   */
  predicate UnhashableName(data: seq<Entry>) {
    exists e :: e in data && Truthy(e.name) && e.name.Other? && !e.name.hashable
  }
}
