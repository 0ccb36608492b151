includes = ["**/*.dfy"]

[options]
warn-contradictory-assumptions = true
resource-limit = 2000000
