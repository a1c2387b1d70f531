/**
 * `generate_id(prefix)` draws eight random characters after the prefix. The
 * model numbers ids instead: within one prefix, distinct serials are distinct
 * ids, which is all the converter relies on.
 */
module Ids {
  datatype Id = Id(prefix: string, serial: nat)
}
