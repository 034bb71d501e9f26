/** KWICK_Response_Header: an immutable name/value pair whose constructor
    refuses an empty name or an empty value. */
module Headers {
  import opened Common

  datatype Header = Header(name: string, value: string) {
    /** __get(property): only Name and Value exist. */
    function Property(property: string): (r: Result<string>)
      ensures property == "Name" ==> r == Ok(name)
      ensures property == "Value" ==> r == Ok(value)
      ensures property != "Name" && property != "Value" ==> r.Err? && r.error.InvalidArgument?
    {
      if property == "Name" then Ok(name)
      else if property == "Value" then Ok(value)
      else Err(InvalidArgument("Invalid property specified"))
    }
  }

  /** new KWICK_Response_Header(name, value). */
  function MakeHeader(name: string, value: string): (r: Result<Header>)
    ensures r.Ok? <==> !EmptyText(name) && !EmptyText(value)
    ensures r.Ok? ==> r.value.name == name && r.value.value == value
    ensures EmptyText(name) ==> r == Err(InvalidArgument("Invalid name specified"))
    ensures !EmptyText(name) && EmptyText(value) ==> r == Err(InvalidArgument("Invalid value specified"))
  {
    if EmptyText(name) then Err(InvalidArgument("Invalid name specified"))
    else if EmptyText(value) then Err(InvalidArgument("Invalid value specified"))
    else Ok(Header(name, value))
  }

  /** A constructed header gives back exactly its constructor arguments. */
  lemma HeaderRoundTrip(name: string, value: string)
    requires MakeHeader(name, value).Ok?
    ensures MakeHeader(name, value).value.Property("Name") == Ok(name)
    ensures MakeHeader(name, value).value.Property("Value") == Ok(value)
  {
  }
}
