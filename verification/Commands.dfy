/** The start-up commands that the master sends to nodes. */
module Commands {
  datatype Command = Initialize | Rebuild | Reset
}
