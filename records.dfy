/** The employee record of the registry and the sequence scans the registry's
    operations are built from: the first-match generator scan, `list.index` and
    `list.remove`. */
module Records {

  datatype Option<+T> = None | Some(value: T)

  /** One employee. `id` and `puesto` are optional strings; `nombre` and
      `departamento` are required. */
  datatype Employee = Employee(
    id: Option<string>,
    nombre: string,
    puesto: Option<string>,
    departamento: string)

  /** The one error the registry signals (an HTTP 404). */
  datatype Result<+T> = Ok(value: T) | NotFound

  /** Python truthiness of an optional string: `None` and `""` are false. */
  predicate Truthy(o: Option<string>) {
    o.Some? && o.value != ""
  }

  /** The filter conditions of the registry's scans: `empleado.id == key`
      (lookup by id) and `empleado.id` alone (the test the delete scan uses). */
  datatype Cond = IdEquals(key: string) | IdPresent

  predicate Holds(c: Cond, e: Employee) {
    match c
    case IdEquals(key) => e.id == Some(key)
    case IdPresent => Truthy(e.id)
  }

  /** The position of the element that `next(e for e in s if c, None)` yields:
      the first element satisfying `c`, or None when there is none. */
  function FirstWhere(s: seq<Employee>, c: Cond): (r: Option<nat>)
    ensures r.None? <==> forall j :: 0 <= j < |s| ==> !Holds(c, s[j])
    ensures r.Some? ==> r.value < |s| && Holds(c, s[r.value])
    ensures r.Some? ==> forall j :: 0 <= j < r.value ==> !Holds(c, s[j])
  {
    if |s| == 0 then None
    else if Holds(c, s[0]) then Some(0)
    else
      match FirstWhere(s[1..], c)
      case None => None
      case Some(i) => Some(i + 1)
  }

  /** `s.index(x)`: the position of the first element equal to `x`. */
  function IndexOf(s: seq<Employee>, x: Employee): (r: nat)
    requires x in s
    ensures r < |s| && s[r] == x
    ensures forall j :: 0 <= j < r ==> s[j] != x
  {
    if s[0] == x then 0 else 1 + IndexOf(s[1..], x)
  }

  /** `s.remove(x)`: the list without its first element equal to `x`. */
  function RemoveFirst(s: seq<Employee>, x: Employee): (r: seq<Employee>)
    requires x in s
    ensures r == s[..IndexOf(s, x)] + s[IndexOf(s, x) + 1..]
  {
    if s[0] == x then s[1..]
    else
      assert s == [s[0]] + s[1..];
      [s[0]] + RemoveFirst(s[1..], x)
  }

  /** The element a scan found is first equal to itself at the position the
      scan found it: `index` and `remove` on it act at that position. */
  lemma {:induction false} IndexOfScanned(s: seq<Employee>, c: Cond, i: nat)
    requires FirstWhere(s, c) == Some(i)
    ensures i < |s| && IndexOf(s, s[i]) == i
  {
  }
}
