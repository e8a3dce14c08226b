/** What every table of the platform is partitioned by, next to the tenant id. */
module Tenancy {
  datatype Environment = Live | Test
}
