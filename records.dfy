/** The values the engine exchanges with the record store and its HTTP clients. */
module Records {
  import opened Wrappers

  /** A JSON value as the request parser hands it over (floating-point numbers are not modelled). */
  datatype Json =
    | JNull
    | JBool(b: bool)
    | JInt(i: int)
    | JStr(s: string)
    | JList(items: seq<Json>)
    | JObject(size: nat)

  /** Python truthiness of a JSON value. */
  predicate Truthy(j: Json) {
    match j
    case JNull => false
    case JBool(b) => b
    case JInt(i) => i != 0
    case JStr(s) => s != ""
    case JList(items) => items != []
    case JObject(size) => size != 0
  }

  /**
   * A doctor row of the record store as the search engine reads it. `None` in
   * `textBlock` or `yearsOfExperience` is a NULL column.
   */
  datatype DoctorRecord = DoctorRecord(
    pk: int,
    isActive: bool,
    textBlock: Option<string>,
    name: string,
    specialties: seq<string>,
    yearsOfExperience: Option<int>,
    hospital: string,
    city: string,
    pincode: string,
    languages: seq<string>,
    phone: string,
    email: string)

  /** The doctor table, keyed by primary key. */
  type DoctorTable = map<int, DoctorRecord>

  predicate KeyedByPk(table: DoctorTable) {
    forall pk :: pk in table ==> table[pk].pk == pk
  }
}
