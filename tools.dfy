/** The tool registry of the scenario engine: one stub tool with a fixed result. */
module Tools {

  /** `get_user_data`: takes no argument and returns the same two string fields on every call. */
  function GetUserData(): (r: map<string, string>)
    ensures r.Keys == {"name", "age"}
    ensures r["name"] == "Антон"
    ensures r["age"] == "25"
  {
    map["name" := "Антон", "age" := "25"]
  }
}
