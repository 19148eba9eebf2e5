/** The launcher's command, reduced to what the modelled code looks at. */
module Domain {
  import opened Wrappers

  datatype Command = Command(provider: string, id: string, title: string, subtitle: Option<string>)
}
